/** The collector as it runs: the work fill, the handling of one result, and the transition to endgame,
    on the real tracker and the real writer. What the workers do in between is the business of the step
    system; each method is proved to be a run of its collector steps. */
module Collector {
  import opened Prelude
  import opened Metainfo
  import opened Storage
  import opened PieceWriter
  import opened DiskWriter
  import opened Endgame
  import PieceDownload
  import opened Engine
  import opened EngineInvariants
  import opened EngineTheorems
  import EngineProgress

  /** The tracker after the loop has passed the pieces from `i` on. */
  function FilledTracker(t: Tracker, info: Info, completed: set<nat>, i: nat): Tracker
    requires i <= NumPieces(info)
    decreases NumPieces(info) - i
  {
    if i == NumPieces(info) then t
    else FilledTracker(if i in completed then t else Added(t, WorkOf(info, i)), info, completed, i + 1)
  }

  /** The books after an undisturbed transition. */
  function Transitioned(b: Books, info: Info): Books {
    b.(tracker := FilledTracker(b.tracker, info, b.completed, 0).(active := true), pc := Receiving)
  }

  /** From the end of a write to the next wait for a result, or to the return. */
  function Continued(b: Books, info: Info): Books {
    match b.pc
    case Closing => b.(pc := Returned(Success))
    case Adding(_) => Transitioned(b, info)
    case _ => b
  }

  /** The books after one result, when the write succeeds or fails as given. */
  function Handled(c: Config, b: Books, r: PieceResult, ok: bool): Books {
    var judged := Judged(b, r);
    if judged.pc.Receiving? then judged
    else if !ok then judged.(pc := Returned(WriteFailed(r)))
    else Continued(Written(judged, r, Count(c)), c.info)
  }

  /** How many workers each address has. */
  class ActiveWorkers {
    var active: map<Addr, nat>

    constructor ()
      ensures active == map[]
    {
      active := map[];
    }

    /** Counts one more worker for the address, unless it has the most it may have. */
    method Start(a: Addr) returns (ok: bool)
      modifies this
      ensures ok <==> ActiveOf(old(active), a) < MAX_WORKERS_PER_PEER
      ensures forall b :: ActiveOf(active, b) == ActiveOf(old(active), b) + if ok && b == a then 1 else 0
    {
      if a in active && active[a] >= MAX_WORKERS_PER_PEER { return false; }
      active := active[a := ActiveOf(active, a) + 1];
      ok := true;
    }

    /** Discounts a worker that ends; an address without workers is forgotten. */
    method End(a: Addr)
      requires ActiveOf(active, a) > 0
      modifies this
      ensures active == Ended(old(active), a)
      ensures forall b :: ActiveOf(active, b) == ActiveOf(old(active), b) - if b == a then 1 else 0
    {
      active := active[a := active[a] - 1];
      if active[a] == 0 { active := active - {a}; }
    }
  }

  class Downloader {
    const c: Config
    const tracker: EndgameTracker
    const writer: FileWriter
    var workCh: seq<PieceWork>
    var egClosed: bool
    var doneClosed: bool
    var completed: set<nat>
    var done: nat
    var downloaded: nat
    var bytes: int
    ghost var log: seq<PieceResult>
    ghost const initial: Disk

    ghost function BooksAt(pc: Pc): Books
      reads this, tracker
    {
      Books(pc, tracker.State(), completed, done, downloaded, bytes, log)
    }

    lemma OnlyPcDiffers(p: Pc, q: Pc)
      ensures BooksAt(q) == BooksAt(p).(pc := q)
    {
    }

    /** The files hold exactly what was logged. */
    ghost predicate Valid()
      reads this, writer
    {
      && writer.Valid() && writer.info == c.info && Layout(c.info, writer.files)
      && Fitting(c, log) && writer.disk == DiskAfter(c, initial, writer.files, log)
    }

    constructor (c: Config, writer: FileWriter)
      requires writer.Valid() && writer.info == c.info && Layout(c.info, writer.files)
      ensures Valid() && this.c == c && this.writer == writer && initial == writer.disk && fresh(tracker)
      ensures BooksAt(Spawning(0)) == Init(c).books && workCh == Init(c).chan && !egClosed && !doneClosed
      ensures |workCh| == NumPieces(c.info)
      ensures forall k :: 0 <= k < |workCh| ==> workCh[k] == PieceWork(k, c.info.pieces[k], PieceSize(c.info, k))
    {
      this.c, this.writer, initial := c, writer, writer.disk;
      tracker := new EndgameTracker();
      egClosed, doneClosed, completed, done, downloaded, bytes := false, false, {}, 0, 0, 0;
      workCh, log := [], [];
      new;
      for i := 0 to NumPieces(c.info)
        invariant workCh == WorkUpTo(c.info, i) && |workCh| == i
        invariant forall k :: 0 <= k < i ==> workCh[k] == PieceWork(k, c.info.pieces[k], PieceSize(c.info, k))
        invariant Valid() && tracker.State() == EMPTY && initial == writer.disk
        invariant completed == {} && done == 0 && downloaded == 0 && bytes == 0 && log == [] && !egClosed && !doneClosed
      {
        workCh := workCh + [PieceWork(i, c.info.pieces[i], PieceSize(c.info, i))];
      }
    }

    /** Fills the tracker, activates it, drains the channel, and then signals the workers. */
    method TransitionToEndgame()
      modifies tracker, this`workCh, this`egClosed
      ensures tracker.State() == FilledTracker(old(tracker.State()), c.info, completed, 0).(active := true)
      ensures workCh == [] && egClosed
    {
      for i := 0 to NumPieces(c.info)
        invariant FilledTracker(old(tracker.State()), c.info, completed, 0)
               == FilledTracker(tracker.State(), c.info, completed, i)
      {
        if i !in completed {
          tracker.AddPiece(PieceWork(i, c.info.pieces[i], PieceSize(c.info, i)));
        }
      }
      tracker.Activate();
      while workCh != []
        invariant tracker.State() == FilledTracker(old(tracker.State()), c.info, completed, 0).(active := true)
      {
        workCh := workCh[1..];
      }
      egClosed := true;
    }

    /** Discards a failed or duplicate result; marks any other completed. */
    method Mark(r: PieceResult) returns (first: bool)
      modifies this`completed, tracker
      ensures first <==> !r.failed && r.index !in old(completed)
      ensures completed == old(completed) + if first then {r.index} else {}
      ensures BooksAt(if first then Writing(r) else Receiving) == Judged(old(BooksAt(Got(r))), r)
    {
      hide Completed;
      if r.failed { return false; }
      if r.index in completed { return false; }
      completed := completed + {r.index};
      var active := tracker.IsActive();
      if active { var _ := tracker.Complete(r.index); }
      first := true;
    }

    /** Writes the piece and counts it. */
    method Record(r: PieceResult) returns (ok: bool)
      requires Valid() && ValidResult(c, r)
      modifies this`done, this`downloaded, this`bytes, this`log, writer
      ensures ok ==> Valid()
      ensures OnDisk(c, initial, writer.files, BooksAt(if ok then Receiving else Writing(r)), writer.disk)
      ensures BooksAt(if ok then Onward(done, Count(c), tracker.State().active) else Writing(r))
           == if ok then Written(old(BooksAt(Writing(r))), r, Count(c)) else old(BooksAt(Writing(r)))
    {
      hide DiskAfter, PieceDownload.Verified, WritePieceOn, Fitting;
      LogExtends(c, initial, writer.files, log, r);
      ghost var reach: nat;
      ok, reach := writer.WritePiece(r.index, r.data);
      if !ok { return; }
      log := log + [r];
      done := done + 1;
      downloaded := downloaded + 1;
      bytes := bytes + |r.data|;
    }

    /** Ends the download, or enters endgame, or goes on. */
    method Proceed() returns (end: Option<Engine.Outcome>)
      modifies this`doneClosed, this`workCh, this`egClosed, tracker
      ensures BooksAt(if end.None? then Receiving else Returned(end.value))
           == Continued(old(BooksAt(Onward(done, Count(c), tracker.State().active))), c.info)
      ensures end.None? || end == Some(Success)
      ensures doneClosed == (old(doneClosed) || end == Some(Success))
      ensures egClosed ==> old(egClosed) || (tracker.State().active && workCh == [])
    {
      hide FilledTracker;
      if done >= NumPieces(c.info) {
        doneClosed := true;
        return Some(Success);
      }
      var remaining := NumPieces(c.info) - done;
      var active := tracker.IsActive();
      if remaining <= ENDGAME_THRESHOLD && !active { TransitionToEndgame(); }
      end := None;
    }

    /** One turn of the loop over the results; `end` is the outcome when the download returns, `ok` whether
        the write, if there was one, succeeded. */
    method Collect(r: PieceResult) returns (end: Option<Engine.Outcome>, ok: bool)
      requires Valid() && (r.failed || ValidResult(c, r))
      modifies this, tracker, writer
      ensures ok ==> Valid()
      ensures !ok ==> end == Some(WriteFailed(r))
      ensures ok ==> end.None? || end == Some(Success)
      ensures OnDisk(c, initial, writer.files, BooksAt(if end.None? then Receiving else Returned(end.value)), writer.disk)
      ensures BooksAt(if end.None? then Receiving else Returned(end.value)) == Handled(c, old(BooksAt(Got(r))), r, ok)
      ensures doneClosed == (old(doneClosed) || end == Some(Success))
      ensures egClosed ==> old(egClosed) || (tracker.State().active && workCh == [])
    {
      hide Judged, Written, Continued, ValidResult, Onward, DiskAfter, Layout, Fitting, ReachedDisk;
      ok := true;
      ghost var before := BooksAt(Got(r));
      assert Judged(before, r).pc.Writing? || Judged(before, r).pc.Receiving? by { JudgedPc(before, r); }
      var first := Mark(r);
      if !first { return None, ok; }
      assert ValidResult(c, r) by { JudgedPc(before, r); }
      ok := Record(r);
      if !ok { return Some(WriteFailed(r)), ok; }
      assert Written(Judged(before, r), r, Count(c)).pc == Onward(done, Count(c), tracker.State().active);
      end := Proceed();
    }

    /** The loop over the result channel, from the start to the return, when these results arrive and then
        the channel is closed. Without a failed write it succeeds if and only if they contain every piece,
        and then the files hold the published content. */
    method CollectAll(results: seq<PieceResult>, ghost content: seq<byte>) returns (outcome: Engine.Outcome)
      requires Valid() && BooksAt(Receiving) == Init(c).books.(pc := Receiving)
      requires forall k :: 0 <= k < |results| ==> results[k].failed || ValidResult(c, results[k])
      requires |content| == Total(c.info) && Published(c, content) && NoCollisions(c, content, results)
      requires forall k :: 0 <= k < |writer.files| ==> writer.files[k].path !in initial
      modifies this, tracker, writer
      ensures outcome == Success ==>
                && Complete(writer.disk, writer.files, content) && downloaded == Count(c) && bytes == Total(c.info)
                && Below(Count(c)) <= Delivered(results)
      ensures outcome == AllFailed ==> !(Below(Count(c)) <= Delivered(results))
      ensures Holds(writer.disk, writer.files, c.info, content, LogSet(log))
      ensures doneClosed == (old(doneClosed) || outcome == Success)
    {
      hide BooksKept, Handled, ValidResult, Complete, Published, NoCollision, DiskAfter, OnDisk, Holds, Handed;
      StartIsKept(c);
      assert Delivered([]) == {} && results[..0] == [];
      assert log == [];
      assert Consistent(c.info);
      var k := 0;
      while k < |results|
        invariant k <= |results| && Valid() && BooksKept(c, BooksAt(Receiving))
        invariant BooksAt(Receiving).completed == Delivered(results[..k])
        invariant NoCollisions(c, content, log)
        invariant doneClosed == old(doneClosed)
      {
        var r := results[k];
        assert r.index < Count(c) ==> NoCollision(c, content, r);
        ghost var before := BooksAt(Receiving);
        assert BooksAt(Got(r)) == before.(pc := Got(r)) by { OnlyPcDiffers(Receiving, Got(r)); }
        var end, ok := Collect(r);
        HandledKeeps(c, before, r, ok);
        HandledHands(c, content, before, r, ok);
        DeliveredMore(results, k);
        if end.Some? {
          BooksInPlace(c, initial, writer.files, content, BooksAt(Returned(end.value)), writer.disk);
          if end.value == Success {
            SuccessDelivers(c, BooksAt(Returned(Success)));
            BooksOfSuccess(c, initial, writer.files, content, BooksAt(Returned(Success)));
          }
          return end.value;
        }
        k := k + 1;
      }
      assert results[..k] == results;
      LogIsInPlace(c, initial, writer.files, content, log);
      UnfinishedMisses(c, BooksAt(Receiving));
      outcome := if done < NumPieces(c.info) then AllFailed else Success;
    }
  }

  /** The pieces among the results that did not fail. */
  ghost function Delivered(results: seq<PieceResult>): set<nat> {
    set k | 0 <= k < |results| && !results[k].failed :: results[k].index
  }

  lemma JudgedPc(b: Books, r: PieceResult)
    ensures Judged(b, r).pc == Receiving || (Judged(b, r).pc == Writing(r) && !r.failed)
  {
    hide Completed;
  }

  /** Handling a result hands no other result to the writer. */
  lemma HandledHands(c: Config, content: seq<byte>, b: Books, r: PieceResult, ok: bool)
    requires Consistent(c.info) && |content| == Total(c.info) && b.pc.Receiving?
    requires NoCollisions(c, content, b.log) && (r.index < Count(c) ==> NoCollision(c, content, r))
    ensures var h := Handled(c, b.(pc := Got(r)), r, ok);
            NoCollisions(c, content, Handed(h)) && NoCollisions(c, content, h.log)
  {
    hide NoCollision, Completed, FilledTracker;
    assert NoCollisions(c, content, b.log + [r]);
    var h := Handled(c, b.(pc := Got(r)), r, ok);
    assert h.log == b.log || (h.log == b.log + [r] && InFlight(h.pc).None?);
    assert Handed(h) == b.log || Handed(h) == b.log + [r];
  }

  lemma SuccessDelivers(c: Config, b: Books)
    requires BooksKept(c, b) && b.pc == Returned(Success)
    ensures Below(Count(c)) <= b.completed && b.downloaded == Count(c)
  {
    hide SizeOf, ValidResult, Below, TrackerExact;
    SuccessWritesAll(c, b);
  }

  lemma UnfinishedMisses(c: Config, b: Books)
    requires BooksKept(c, b) && b.pc.Receiving? && Count(c) > 0
    ensures b.done < Count(c) && !(Below(Count(c)) <= b.completed)
  {
    hide SizeOf, ValidResult, Below, TrackerExact;
    OnceCounts(b.log);
    assert b.completed <= Below(Count(c)) && LogSet(b.log) == b.completed;
    if Below(Count(c)) <= b.completed { FullSubset(Below(Count(c)), b.completed); }
  }

  lemma DeliveredMore(results: seq<PieceResult>, k: nat)
    requires k < |results|
    ensures Delivered(results[..k + 1]) == Delivered(results[..k]) + (if results[k].failed then {} else {results[k].index})
    ensures Delivered(results[..k + 1]) <= Delivered(results)
  {
    var now, next := results[..k], results[..k + 1];
    forall i | i in Delivered(now) ensures i in Delivered(next) {
      var j :| 0 <= j < k && !now[j].failed && now[j].index == i;
      assert next[j] == now[j];
    }
    forall i | i in Delivered(next) ensures i in Delivered(results) {
      var j :| 0 <= j <= k && !next[j].failed && next[j].index == i;
      assert results[j] == next[j];
    }
    assert next[k] == results[k];
  }

  lemma LogExtends(c: Config, disk: Disk, files: seq<FileEntry>, log: seq<PieceResult>, r: PieceResult)
    requires Layout(c.info, files) && Fitting(c, log) && ValidResult(c, r)
    ensures Fitting(c, log + [r]) && |r.data| == PieceSize(c.info, r.index)
    ensures DiskAfter(c, disk, files, log + [r])
         == WritePieceOn(DiskAfter(c, disk, files, log), files, c.info, r.index, r.data)
  {
    hide WritePieceOn;
    assert (log + [r])[..|log|] == log;
    assert Fitting(c, log + [r]) by { hide ValidResult; }
  }

  // ---- The methods are runs of the collector's steps ----

  function Times(step: CollectorStep, n: nat): (r: seq<Step>)
    ensures forall k :: 0 <= k < |r| ==> r[k].Collect?
  {
    if n == 0 then [] else [Step.Collect(step)] + Times(step, n - 1)
  }

  lemma {:induction false} AddingRuns(c: Config, s: State)
    requires !s.crashed && s.books.pc.Adding? && s.books.pc.i <= Count(c)
    ensures var b := s.books;
            Exec(c, s, Times(Add, Count(c) - b.pc.i + 1))
            == Some(s.(books := b.(pc := Draining,
                                   tracker := FilledTracker(b.tracker, c.info, b.completed, b.pc.i).(active := true))))
    decreases Count(c) - s.books.pc.i
  {
    hide WorkOf, Added;
    var n := Count(c) - s.books.pc.i;
    var t := Next(c, s, Step.Collect(Add)).value;
    assert Times(Add, n + 1)[1..] == Times(Add, n);
    if n > 0 {
      AddingRuns(c, t);
    }
  }

  lemma {:induction false} DrainingRuns(c: Config, s: State)
    requires !s.crashed && s.books.pc.Draining?
    ensures Exec(c, s, Times(Drain, |s.chan| + 1))
         == Some(s.(chan := [], books := s.books.(pc := Receiving), signals := s.signals.(egClosed := true)))
    decreases |s.chan|
  {
    var t := Next(c, s, Step.Collect(Drain)).value;
    assert Times(Drain, |s.chan| + 1)[1..] == Times(Drain, |s.chan|);
    if s.chan != [] {
      DrainingRuns(c, t);
    }
  }

  /** The transition is a run of the steps that add, activate, drain and signal, when no worker's step
      comes in between. */
  lemma {:induction false} TransitionIsARun(c: Config, s: State) returns (steps: seq<Step>)
    requires !s.crashed && s.books.pc == Adding(0)
    ensures Exec(c, s, steps)
         == Some(s.(chan := [], books := Transitioned(s.books, c.info), signals := s.signals.(egClosed := true)))
    ensures forall k :: 0 <= k < |steps| ==> steps[k].Collect?
  {
    hide Exec, FilledTracker;
    AddingRuns(c, s);
    var adding := Times(Add, Count(c) + 1);
    var t := Exec(c, s, adding).value;
    DrainingRuns(c, t);
    var draining := Times(Drain, |t.chan| + 1);
    EngineProgress.ExecJoins(c, s, adding, draining);
    steps := adding + draining;
  }

  /** Handling one result is a run of the collector's steps. */
  lemma {:induction false} CollectIsARun(c: Config, s: State, r: PieceResult, ok: bool) returns (steps: seq<Step>)
    requires !s.crashed && s.books.pc == Got(r)
    ensures Exec(c, s, steps).Some? && Exec(c, s, steps).value.books == Handled(c, s.books, r, ok)
    ensures var t := Exec(c, s, steps).value;
            && t.workers == s.workers && !t.crashed && t.signals.resultClosed == s.signals.resultClosed
            && t.signals.doneClosed == (s.signals.doneClosed || t.books.pc == Returned(Success))
    ensures forall k :: 0 <= k < |steps| ==> steps[k].Collect?
  {
    hide FilledTracker, Completed;
    var judge := Step.Collect(Judge);
    var t := Next(c, s, judge).value;
    if t.books.pc.Receiving? {
      steps := [judge];
      OneStep(c, s, judge);
    } else {
      var write := Step.Collect(Write(ok));
      var u := Next(c, t, write).value;
      OneStep(c, t, write);
      var more := [];
      if u.books.pc.Closing? {
        more := [Step.Collect(Close)];
        OneStep(c, u, more[0]);
      } else if u.books.pc.Adding? {
        more := TransitionIsARun(c, u);
      } else {
        OneStep(c, u, write);
      }
      Prepended(c, t, write, more);
      Prepended(c, s, judge, [write] + more);
      steps := [judge] + ([write] + more);
    }
  }

  lemma OneStep(c: Config, s: State, step: Step)
    ensures Exec(c, s, [step]) == Next(c, s, step)
    ensures Exec(c, s, []) == Some(s)
  {
    hide Next;
  }

  lemma Prepended(c: Config, s: State, step: Step, rest: seq<Step>)
    requires Next(c, s, step).Some?
    ensures Exec(c, s, [step] + rest) == Exec(c, Next(c, s, step).value, rest)
  {
    hide Next;
    assert ([step] + rest)[1..] == rest;
  }

  lemma {:induction false} CollectRunKeepsBooks(c: Config, s: State, steps: seq<Step>)
    requires BooksKept(c, s.books) && Exec(c, s, steps).Some? && forall k :: 0 <= k < |steps| ==> steps[k].Collect?
    ensures BooksKept(c, Exec(c, s, steps).value.books)
    decreases |steps|
  {
    hide BooksKept, CollectNext;
    if steps != [] {
      CollectKeepsBooks(c, s, steps[0].main);
      CollectRunKeepsBooks(c, Next(c, s, steps[0]).value, steps[1..]);
    }
  }

  /** Handling a result keeps the books and adds its piece to the completed ones. */
  lemma {:induction false} HandledKeeps(c: Config, b: Books, r: PieceResult, ok: bool)
    requires BooksKept(c, b) && b.pc.Receiving? && (r.failed || ValidResult(c, r))
    ensures var h := Handled(c, b.(pc := Got(r)), r, ok);
            && BooksKept(c, h) && h.completed == b.completed + (if r.failed then {} else {r.index})
            && (h.pc.Receiving? || h.pc == Returned(Success) || h.pc == Returned(WriteFailed(r)))
            && (!ok ==> h.pc != Returned(Success))
  {
    hide BooksKept, ValidResult, Exec, FilledTracker, Completed;
    if !r.failed {
      var s := Init(c).(books := b.(pc := Got(r)));
      ReceiptKeepsBooks(c, b, r);
      var steps := CollectIsARun(c, s, r, ok);
      CollectRunKeepsBooks(c, s, steps);
    }
  }

  lemma StartIsKept(c: Config)
    ensures BooksKept(c, Init(c).books.(pc := Receiving))
  {
    hide BooksKept;
    InitKeeps(c);
    MoveKeepsBooks(c, Init(c).books, Receiving);
  }
}
