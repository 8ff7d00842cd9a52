/** What every step of the download keeps. */
module EngineInvariants {
  import opened Prelude
  import Message
  import Bitfield
  import opened Metainfo
  import opened Endgame
  import opened PieceDownload
  import opened Engine

  // ---- Genuine work and verified results ----

  ghost predicate Genuine(c: Config, pw: PieceWork) { pw.index < Count(c) && pw == WorkOf(c.info, pw.index) }

  ghost predicate ValidResult(c: Config, r: PieceResult) {
    r.index < Count(c) && !r.failed && Verified(WorkOf(c.info, r.index), r.data, c.sha1)
  }

  ghost predicate PhaseGenuine(c: Config, p: Phase) {
    match p
    case Taken(pw) => Genuine(c, pw)
    case Loading(pw, _) => Genuine(c, pw)
    case Requeuing(pw, _) => Genuine(c, pw)
    case Delivering(r, _) => ValidResult(c, r)
    case _ => true
  }

  ghost predicate GenuineAll(c: Config, chan: seq<PieceWork>) { forall k :: 0 <= k < |chan| ==> Genuine(c, chan[k]) }

  ghost predicate AllGenuine(c: Config, s: State) {
    && GenuineAll(c, s.chan)
    && (forall w :: 0 <= w < |s.workers| ==> PhaseGenuine(c, s.workers[w].phase))
  }

  // ---- The collector's books ----

  ghost function Below(n: nat): (r: set<nat>)
    ensures |r| == n
    ensures forall i: nat :: i in r <==> i < n
  {
    if n == 0 then {} else Below(n - 1) + {n - 1}
  }

  ghost function LogSet(log: seq<PieceResult>): set<nat> { set k | 0 <= k < |log| :: log[k].index }

  ghost predicate Once(log: seq<PieceResult>) {
    forall j, k :: 0 <= j < k < |log| ==> log[j].index != log[k].index
  }

  /** The bytes of the pieces below `k` that are in the set. */
  ghost function SizeOf(info: Info, pieces: set<nat>, k: nat): int {
    if k == 0 then 0 else SizeOf(info, pieces, k - 1) + if k - 1 in pieces then PieceSize(info, k - 1) else 0
  }

  /** The result that was handed to the writer and is not written, or not written to the end. */
  function InFlight(pc: Pc): Option<PieceResult> {
    match pc
    case Writing(r) => Some(r)
    case Returned(WriteFailed(r)) => Some(r)
    case _ => None
  }

  /** The piece that is marked completed but not written. */
  ghost function Pending(pc: Pc): set<nat> {
    match InFlight(pc) case None => {} case Some(r) => {r.index}
  }

  /** The tracker holds nothing before endgame, the uncompleted pieces below `i` while it is filled, and
      exactly the uncompleted pieces from then on. */
  ghost predicate TrackerExact(c: Config, b: Books) {
    var t := b.tracker;
    && Distinct(t.pieces) && t.completed <= b.completed
    && GenuineAll(c, t.pieces)
    && (b.pc.Adding? ==> !t.active && b.pc.i <= Count(c))
    && (b.pc.Draining? ==> t.active)
    && (b.pc.Spawning? ==> !t.active)
    && (!t.active ==> t.completed == {})
    && IndexSet(t.pieces) == (if t.active then Below(Count(c)) - b.completed
                              else if b.pc.Adding? then Below(b.pc.i) - b.completed
                              else {})
  }

  /** Every write is logged once, with verified data, and the counters agree with the log. */
  ghost predicate Accounts(c: Config, b: Books) {
    && b.completed <= Below(Count(c))
    && Once(b.log) && (forall k :: 0 <= k < |b.log| ==> ValidResult(c, b.log[k]))
    && Pending(b.pc) <= b.completed && LogSet(b.log) == b.completed - Pending(b.pc)
    && |b.log| == b.done == b.downloaded
    && b.bytes == SizeOf(c.info, LogSet(b.log), Count(c))
  }

  ghost predicate FewRemain(c: Config, b: Books) { b.done > 0 && Count(c) - b.done <= ENDGAME_THRESHOLD }

  /** The collector stops when, and only when, everything is written, and switches to endgame as soon as
      few pieces remain. */
  ghost predicate Stops(c: Config, b: Books) {
    && (b.tracker.active || b.pc.Adding? || b.pc.Draining? ==> FewRemain(c, b))
    && (b.pc.Receiving? || b.pc.Got? || b.pc.Writing? ==> (b.tracker.active <==> FewRemain(c, b)))
    && (b.pc.Spawning? ==> b.done == 0)
    && (b.pc.Got? ==> ValidResult(c, b.pc.result))
    && (InFlight(b.pc).Some? ==> ValidResult(c, InFlight(b.pc).value))
    && (b.pc.Closing? || b.pc == Returned(Success) ==> b.done >= Count(c))
    && (b.pc == Returned(AllFailed) ==> b.done < Count(c))
    && (!b.pc.Closing? && !b.pc.Returned? && Count(c) > 0 ==> b.done < Count(c))
  }

  ghost predicate BooksKept(c: Config, b: Books) { TrackerExact(c, b) && Accounts(c, b) && Stops(c, b) }

  // ---- The switch to endgame ----

  predicate Racing(p: Phase) {
    match p
    case Picking => true
    case Loading(_, Race) => true
    case Delivering(_, Race) => true
    case _ => false
  }

  /** Workers race only after the signal, the signal comes only after the tracker is filled and active
      and the channel was drained. */
  ghost predicate Switched(s: State) {
    && (s.signals.egClosed ==> s.books.tracker.active && !s.books.pc.Draining?)
    && (s.books.tracker.active ==> s.signals.egClosed || s.books.pc.Draining?)
    && (s.signals.doneClosed ==> s.books.pc == Returned(Success))
    && (forall w :: 0 <= w < |s.workers| && Racing(s.workers[w].phase) ==> s.signals.egClosed)
  }

  // ---- Where the pieces are ----

  ghost function InChan(chan: seq<PieceWork>, i: nat): nat {
    if chan == [] then 0 else (if chan[0].index == i then 1 else 0) + InChan(chan[1..], i)
  }

  ghost function Carries(x: Worker, i: nat): nat { if Carried(x) == Some(i) then 1 else 0 }

  ghost function Carriers(workers: seq<Worker>, i: nat): nat {
    if workers == [] then 0 else Carries(workers[0], i) + Carriers(workers[1..], i)
  }

  ghost function InHand(b: Books, i: nat): nat {
    if b.pc.Got? && !b.tracker.active && b.pc.result.index == i then 1 else 0
  }

  /** How many times piece `i` is in the channel, with a worker that took it from there, or in the
      collector's hand. */
  ghost function Copies(s: State, i: nat): nat { InChan(s.chan, i) + Carriers(s.workers, i) + InHand(s.books, i) }

  ghost function Unit(b: bool): nat { if b then 1 else 0 }

  /** Before endgame every piece is in exactly one place: in the channel, with one worker, in the
      collector's hand, or completed. Afterwards no piece is in two. */
  ghost predicate Conserved(c: Config, s: State) {
    forall i: nat ::
      if s.books.tracker.active then Copies(s, i) <= Unit(i < Count(c))
      else Copies(s, i) + Unit(i in s.books.completed) == Unit(i < Count(c))
  }

  // ---- Workers an address ----

  ghost function IsLive(x: Worker, a: Addr): nat { if x.addr == a && !x.phase.Gone? then 1 else 0 }

  ghost function Live(workers: seq<Worker>, a: Addr): nat {
    if workers == [] then 0 else IsLive(workers[0], a) + Live(workers[1..], a)
  }

  ghost predicate Capped(s: State) {
    forall a: Addr :: Live(s.workers, a) == ActiveOf(s.active, a) <= MAX_WORKERS_PER_PEER
  }

  ghost predicate Inv(c: Config, s: State) {
    AllGenuine(c, s) && BooksKept(c, s.books) && Switched(s) && Conserved(c, s) && Capped(s)
  }

  // ---- Books: every step of the collector ----

  lemma {:induction false} JudgeKeepsTracker(c: Config, b: Books, r: PieceResult)
    requires TrackerExact(c, b) && b.pc == Got(r)
    ensures TrackerExact(c, Judged(b, r))
  {
    hide Completed, Distinct;
    if !r.failed && r.index !in b.completed && b.tracker.active {
      CompleteRemoves(b.tracker, r.index);
      var t := Completed(b.tracker, r.index).0;
      forall k | 0 <= k < |t.pieces| ensures Genuine(c, t.pieces[k]) {
        assert t.pieces[k] in b.tracker.pieces;
      }
      assert Below(Count(c)) - b.completed - {r.index} == Below(Count(c)) - (b.completed + {r.index});
    }
  }

  lemma {:induction false} JudgeKeepsAccounts(c: Config, b: Books, r: PieceResult)
    requires Accounts(c, b) && b.pc == Got(r) && r.index < Count(c)
    ensures Accounts(c, Judged(b, r))
  {
    hide Completed, SizeOf;
    var after := Judged(b, r);
    if after.pc.Writing? {
      assert after.completed - {r.index} == b.completed;
    }
  }

  lemma {:induction false} SizeAdds(info: Info, pieces: set<nat>, i: nat, k: nat)
    requires i !in pieces
    ensures SizeOf(info, pieces + {i}, k) == SizeOf(info, pieces, k) + if i < k then PieceSize(info, i) else 0
  {
    if k > 0 { SizeAdds(info, pieces, i, k - 1); }
  }

  lemma LogGrows(log: seq<PieceResult>, r: PieceResult)
    ensures LogSet(log + [r]) == LogSet(log) + {r.index}
    ensures Once(log) && r.index !in LogSet(log) ==> Once(log + [r])
  {
    var l := log + [r];
    forall i | i in LogSet(log) ensures i in LogSet(l) {
      var k :| 0 <= k < |log| && log[k].index == i;
      assert l[k].index == i;
    }
    assert l[|log|].index == r.index;
  }

  lemma {:induction false} WriteKeepsAccounts(c: Config, b: Books, r: PieceResult)
    requires Accounts(c, b) && b.pc == Writing(r) && ValidResult(c, r)
    ensures Accounts(c, Written(b, r, Count(c)))
  {
    hide SizeOf, Once, LogSet;
    assert r.index !in LogSet(b.log);
    LogGrows(b.log, r);
    SizeAdds(c.info, LogSet(b.log), r.index, Count(c));
    var after := Written(b, r, Count(c));
    assert Pending(after.pc) == {};
    assert LogSet(after.log) == b.completed - {r.index} + {r.index} == b.completed;
  }

  lemma MoreGenuine(c: Config, pieces: seq<PieceWork>, pw: PieceWork)
    requires GenuineAll(c, pieces) && Genuine(c, pw)
    ensures GenuineAll(c, pieces + [pw])
  {
  }

  lemma AddedAtEnd(pieces: seq<PieceWork>, pw: PieceWork)
    requires Distinct(pieces) && pw.index !in IndexSet(pieces)
    ensures Distinct(pieces + [pw]) && IndexSet(pieces + [pw]) == IndexSet(pieces) + {pw.index}
  {
    var l := pieces + [pw];
    forall i | i in IndexSet(pieces) ensures i in IndexSet(l) {
      var k :| 0 <= k < |pieces| && pieces[k].index == i;
      assert l[k].index == i;
    }
    assert l[|pieces|].index == pw.index;
  }

  lemma BelowGrows(i: nat, completed: set<nat>)
    ensures Below(i + 1) - completed == Below(i) - completed + (if i in completed then {} else {i})
  {
  }

  lemma {:induction false} SkipKeepsTracker(c: Config, b: Books, i: nat)
    requires TrackerExact(c, b) && b.pc == Adding(i) && (i in b.completed || i >= Count(c))
    ensures TrackerExact(c, AddTurn(b, c.info, i))
  {
    hide Distinct, IndexSet, GenuineAll, Below;
    BelowGrows(i, b.completed);
  }

  lemma {:induction false} AddKeepsTracker(c: Config, b: Books, i: nat)
    requires TrackerExact(c, b) && b.pc == Adding(i) && i !in b.completed && i < Count(c)
    ensures TrackerExact(c, AddTurn(b, c.info, i))
  {
    hide Distinct, IndexSet, WorkOf, Below, GenuineAll;
    var pieces, pw := b.tracker.pieces, WorkOf(c.info, i);
    assert pw.index == i && GenuineAll(c, pieces + [pw]) by { WorkIsGenuine(c, i); MoreGenuine(c, pieces, pw); }
    assert i !in IndexSet(pieces);
    AddedAtEnd(pieces, pw);
    BelowGrows(i, b.completed);
  }

  lemma WorkIsGenuine(c: Config, i: nat)
    requires i < Count(c)
    ensures WorkOf(c.info, i).index == i && Genuine(c, WorkOf(c.info, i))
  {
  }

  lemma AddKeepsAccounts(c: Config, b: Books, i: nat)
    requires Accounts(c, b) && b.pc == Adding(i)
    ensures Accounts(c, AddTurn(b, c.info, i))
  {
    hide SizeOf, Once, LogSet, Below, ValidResult, WorkOf, Added;
  }

  lemma AddStops(c: Config, b: Books, i: nat)
    requires Stops(c, b) && b.pc == Adding(i)
    ensures Stops(c, AddTurn(b, c.info, i))
  {
    hide ValidResult, WorkOf;
  }

  lemma JudgeStops(c: Config, b: Books, r: PieceResult)
    requires Stops(c, b) && b.pc == Got(r)
    ensures Stops(c, Judged(b, r))
  {
    hide Completed;
    CompletedStaysActive(b.tracker, r.index);
  }

  lemma WriteKeepsTracker(c: Config, b: Books, r: PieceResult)
    requires TrackerExact(c, b) && b.pc == Writing(r)
    ensures TrackerExact(c, Written(b, r, Count(c)))
  {
    hide Distinct, Genuine;
    assert Below(0) - b.completed == {};
  }

  lemma WriteStops(c: Config, b: Books, r: PieceResult)
    requires Stops(c, b) && b.pc == Writing(r)
    ensures Stops(c, Written(b, r, Count(c)))
  {
  }

  lemma FailKeepsBooks(c: Config, b: Books)
    requires BooksKept(c, b) && b.pc.Writing?
    ensures BooksKept(c, b.(pc := Returned(WriteFailed(b.pc.result))))
  {
    hide SizeOf, Once, Distinct, IndexSet, Genuine, LogSet;
  }

  /** The turns that only move the collector on. */
  ghost predicate OnlyMoves(c: Config, b: Books, pc: Pc) {
    match b.pc
    case Spawning(_) => pc.Receiving? || pc.Spawning?
    case Draining => pc.Receiving?
    case Closing => pc == Returned(Success)
    case Receiving => pc == Returned(if b.done < Count(c) then AllFailed else Success)
    case _ => false
  }

  lemma MoveKeepsTracker(c: Config, b: Books, pc: Pc)
    requires TrackerExact(c, b) && OnlyMoves(c, b, pc)
    ensures TrackerExact(c, b.(pc := pc))
  {
    hide Distinct, IndexSet, GenuineAll, Below;
  }

  lemma MoveKeepsAccounts(c: Config, b: Books, pc: Pc)
    requires Accounts(c, b) && OnlyMoves(c, b, pc)
    ensures Accounts(c, b.(pc := pc))
  {
    hide SizeOf, Once, LogSet, Below, ValidResult;
  }

  lemma MoveStops(c: Config, b: Books, pc: Pc)
    requires Stops(c, b) && OnlyMoves(c, b, pc) && (b.pc.Draining? ==> b.tracker.active)
    ensures Stops(c, b.(pc := pc))
  {
    hide ValidResult;
  }

  lemma MoveKeepsBooks(c: Config, b: Books, pc: Pc)
    requires BooksKept(c, b) && OnlyMoves(c, b, pc)
    ensures BooksKept(c, b.(pc := pc))
  {
    hide Accounts, Stops, OnlyMoves, Distinct, IndexSet, GenuineAll, Below;
    MoveKeepsTracker(c, b, pc);
    MoveKeepsAccounts(c, b, pc);
    MoveStops(c, b, pc);
  }

  lemma {:induction false} CollectKeepsBooks(c: Config, s: State, step: CollectorStep)
    requires BooksKept(c, s.books) && CollectNext(c, s, step).Some?
    ensures BooksKept(c, CollectNext(c, s, step).value.books)
  {
    hide TrackerExact, Accounts, Judged, AddTurn, Written, Started, Genuine;
    var b, after := s.books, CollectNext(c, s, step).value.books;
    match step
    case Judge =>
      var r := b.pc.result;
      JudgeKeepsTracker(c, b, r);
      JudgeKeepsAccounts(c, b, r);
      JudgeStops(c, b, r);
    case Write(ok) =>
      var r := b.pc.result;
      if ok {
        WriteKeepsAccounts(c, b, r);
        WriteKeepsTracker(c, b, r);
        WriteStops(c, b, r);
      } else {
        FailKeepsBooks(c, b);
      }
    case Add =>
      if b.pc.i in b.completed || b.pc.i >= Count(c) { SkipKeepsTracker(c, b, b.pc.i); } else { AddKeepsTracker(c, b, b.pc.i); }
      AddKeepsAccounts(c, b, b.pc.i);
      AddStops(c, b, b.pc.i);
    case _ => if after != b { MoveKeepsBooks(c, b, after.pc); }
  }

  // ---- Books: every step of a worker ----

  /** What a step of a worker does to the books: nothing, or it moves the turn of the endgame tracker, or
      it hands a result to the receiving collector. */
  lemma {:induction false} WorkTouchesBooks(c: Config, s: State, w: nat, step: WorkerStep)
    requires w < |s.workers| && WorkNext(c, s, w, step).Some?
    ensures var b, t := s.books, WorkNext(c, s, w, step).value;
            && t.signals == s.signals
            && (t.books == b
                || t.books == b.(tracker := b.tracker.(offset := t.books.tracker.offset))
                || (b.pc.Receiving? && s.workers[w].phase.Delivering? && t.books == b.(pc := Got(s.workers[w].phase.result))))
  {
    hide Picked, Greeted, Heard, Resumed, LeaveSession, Verified;
    if step.Pick? { PickIsComplete(s.books.tracker, Has(s.workers[w].bitfield)); }
  }

  lemma TurnKeepsBooks(c: Config, b: Books, offset: nat)
    requires BooksKept(c, b)
    ensures BooksKept(c, b.(tracker := b.tracker.(offset := offset)))
  {
    hide SizeOf, Once, Distinct, IndexSet, Genuine, LogSet;
  }

  lemma ReceiptKeepsBooks(c: Config, b: Books, r: PieceResult)
    requires BooksKept(c, b) && b.pc.Receiving? && ValidResult(c, r)
    ensures BooksKept(c, b.(pc := Got(r)))
  {
    hide SizeOf, Once, Distinct, IndexSet, Genuine, LogSet;
  }

  lemma {:induction false} WorkKeepsBooks(c: Config, s: State, w: nat, step: WorkerStep)
    requires w < |s.workers| && BooksKept(c, s.books) && PhaseGenuine(c, s.workers[w].phase)
    requires WorkNext(c, s, w, step).Some?
    ensures BooksKept(c, WorkNext(c, s, w, step).value.books)
  {
    hide WorkNext, BooksKept, ValidResult;
    WorkTouchesBooks(c, s, w, step);
    var t := WorkNext(c, s, w, step).value;
    TurnKeepsBooks(c, s.books, t.books.tracker.offset);
    if t.books.pc != s.books.pc { ReceiptKeepsBooks(c, s.books, s.workers[w].phase.result); }
  }

  // ---- Genuine work ----

  lemma {:induction false} NewPhaseIsGenuine(c: Config, s: State, w: nat, step: WorkerStep)
    requires w < |s.workers| && AllGenuine(c, s) && TrackerExact(c, s.books) && WorkNext(c, s, w, step).Some?
    ensures var t := WorkNext(c, s, w, step).value;
            && |t.workers| == |s.workers| && t.workers == s.workers[w := t.workers[w]]
            && PhaseGenuine(c, t.workers[w].phase)
            && (t.chan == s.chan || (s.chan != [] && t.chan == s.chan[1..])
                || (s.workers[w].phase.Requeuing? && t.chan == s.chan + [s.workers[w].phase.pw]))
  {
    hide Picked, Genuine, Greeted, Heard, Resumed, LeaveSession, TrackerExact, Verified, ValidResult;
    var x := s.workers[w];
    if step.Load? && x.phase.Loading? && Verified(x.phase.pw, step.data, c.sha1) { LoadedIsValid(c, x.phase.pw, step.data); }
    if step.Pick? { PickedIsGenuine(c, s.books, Has(x.bitfield)); }
    QuietPhases(c, x);
    if step.Hear? && step.m.Some? { HearingIsQuiet(c, x, step.m.value); }
  }

  lemma {:induction false} WorkKeepsGenuine(c: Config, s: State, w: nat, step: WorkerStep)
    requires w < |s.workers| && AllGenuine(c, s) && TrackerExact(c, s.books) && WorkNext(c, s, w, step).Some?
    ensures AllGenuine(c, WorkNext(c, s, w, step).value)
  {
    hide WorkNext, Genuine, TrackerExact, ValidResult;
    NewPhaseIsGenuine(c, s, w, step);
    var x := s.workers[w];
    assert PhaseGenuine(c, x.phase);
    if x.phase.Requeuing? { MoreGenuine(c, s.chan, x.phase.pw); }
  }

  lemma LoadedIsValid(c: Config, pw: PieceWork, data: seq<byte>)
    requires Genuine(c, pw) && Verified(pw, data, c.sha1)
    ensures ValidResult(c, PieceResult(pw.index, data, false))
  {
  }

  lemma PickedIsGenuine(c: Config, b: Books, has: nat -> bool)
    requires TrackerExact(c, b)
    ensures Picked(b.tracker, has).1.Some? ==> Genuine(c, Picked(b.tracker, has).1.value)
  {
    hide Picked, Distinct, IndexSet, Genuine;
    PickIsComplete(b.tracker, has);
  }

  /** Leaving, waiting for an unchoke and trying again leave no piece behind. */
  lemma QuietPhases(c: Config, x: Worker)
    ensures forall next :: PhaseGenuine(c, Resumed(x, next).phase) && Carried(Resumed(x, next)) == None
                           && !Racing(Resumed(x, next).phase)
    ensures PhaseGenuine(c, LeaveSession(x).phase) && Carried(LeaveSession(x)) == None && !Racing(LeaveSession(x).phase)
    ensures forall next :: Resumed(x, next).addr == x.addr && !Resumed(x, next).phase.Gone?
    ensures LeaveSession(x).addr == x.addr && !LeaveSession(x).phase.Gone?
  {
  }

  lemma HearingIsQuiet(c: Config, x: Worker, m: Option<Message.Msg>)
    ensures x.phase.Greeting? ==>
              var y := Greeted(x, m, Count(c));
              PhaseGenuine(c, y.phase) && Carried(y) == None && !Racing(y.phase) && y.addr == x.addr && !y.phase.Gone?
    ensures x.phase.AwaitingUnchoke? ==>
              var y := Heard(x, m);
              PhaseGenuine(c, y.phase) && Carried(y) == None && !Racing(y.phase) && y.addr == x.addr && !y.phase.Gone?
  {
    hide Bitfield.SetPiece, Bitfield.NewBitfield, Message.ParseHave;
  }

  // ---- The switch ----

  lemma JudgeKeepsSwitch(s: State)
    requires Switched(s) && s.books.pc.Got?
    ensures Switched(s.(books := Judged(s.books, s.books.pc.result)))
  {
    hide Completed;
    CompletedStaysActive(s.books.tracker, s.books.pc.result.index);
  }

  lemma SpawnKeepsSwitch(c: Config, s: State)
    requires Switched(s) && TrackerExact(c, s.books) && CollectNext(c, s, Spawn).Some?
    ensures Switched(CollectNext(c, s, Spawn).value)
  {
    hide GenuineAll, IndexSet, Distinct, Below;
  }

  lemma DrainKeepsSwitch(c: Config, s: State)
    requires Switched(s) && TrackerExact(c, s.books) && CollectNext(c, s, Drain).Some?
    ensures Switched(CollectNext(c, s, Drain).value)
  {
    hide GenuineAll, IndexSet, Distinct, Below;
  }

  lemma AddKeepsSwitch(c: Config, s: State)
    requires Switched(s) && TrackerExact(c, s.books) && s.books.pc.Adding?
    ensures Switched(s.(books := AddTurn(s.books, c.info, s.books.pc.i)))
  {
    hide GenuineAll, IndexSet, Distinct, Below, WorkOf;
  }

  /** Writing, closing and the end of the results touch neither the tracker nor the endgame signal. */
  lemma EndKeepsSwitch(c: Config, s: State, step: CollectorStep)
    requires Switched(s) && CollectNext(c, s, step).Some? && (step.Write? || step.Close? || step.NoMoreResults?)
    ensures Switched(CollectNext(c, s, step).value)
  {
  }

  lemma {:induction false} CollectKeepsSwitch(c: Config, s: State, step: CollectorStep)
    requires Switched(s) && TrackerExact(c, s.books) && CollectNext(c, s, step).Some?
    ensures Switched(CollectNext(c, s, step).value)
  {
    hide Switched, TrackerExact, Judged, Written, AddTurn, Started;
    match step
    case Spawn => SpawnKeepsSwitch(c, s);
    case Judge => JudgeKeepsSwitch(s);
    case Add => AddKeepsSwitch(c, s);
    case Drain => DrainKeepsSwitch(c, s);
    case _ => EndKeepsSwitch(c, s, step);
  }

  lemma CompletedStaysActive(t: Tracker, i: nat)
    ensures Completed(t, i).0.active == t.active
  {
  }

  lemma {:induction false} RacersHeardTheSignal(c: Config, s: State, w: nat, step: WorkerStep)
    requires w < |s.workers| && Switched(s) && WorkNext(c, s, w, step).Some?
    ensures var t := WorkNext(c, s, w, step).value;
            |t.workers| == |s.workers| && t.workers == s.workers[w := t.workers[w]]
            && (Racing(t.workers[w].phase) ==> s.signals.egClosed)
  {
    hide Picked, Greeted, Heard, Resumed, LeaveSession, Verified;
    var x := s.workers[w];
    QuietPhases(c, x);
    if step.Hear? && step.m.Some? { HearingIsQuiet(c, x, step.m.value); }
  }

  lemma {:induction false} WorkKeepsSwitch(c: Config, s: State, w: nat, step: WorkerStep)
    requires w < |s.workers| && Switched(s) && WorkNext(c, s, w, step).Some?
    ensures Switched(WorkNext(c, s, w, step).value)
  {
    hide WorkNext;
    RacersHeardTheSignal(c, s, w, step);
    WorkTouchesBooks(c, s, w, step);
  }

  // ---- Conservation ----

  lemma {:induction false} CarrierChanges(workers: seq<Worker>, w: nat, x: Worker, i: nat)
    requires w < |workers|
    ensures Carriers(workers[w := x], i) + Carries(workers[w], i) == Carriers(workers, i) + Carries(x, i)
  {
    hide Carries;
    if w > 0 {
      CarrierChanges(workers[1..], w - 1, x, i);
      assert workers[w := x][1..] == workers[1..][w - 1 := x];
    } else {
      assert workers[w := x][1..] == workers[1..];
    }
  }

  lemma {:induction false} CarriersGrow(workers: seq<Worker>, x: Worker, i: nat)
    ensures Carriers(workers + [x], i) == Carriers(workers, i) + Carries(x, i)
  {
    hide Carries;
    if workers != [] {
      CarriersGrow(workers[1..], x, i);
      assert (workers + [x])[1..] == workers[1..] + [x];
    }
  }

  lemma {:induction false} ChanGrows(chan: seq<PieceWork>, pw: PieceWork, i: nat)
    ensures InChan(chan + [pw], i) == InChan(chan, i) + Unit(pw.index == i)
  {
    if chan != [] {
      ChanGrows(chan[1..], pw, i);
      assert (chan + [pw])[1..] == chan[1..] + [pw];
    }
  }

  /** A step of a worker changes that worker, and neither the collector's mode nor what it completed. */
  lemma {:induction false} WorkIsLocal(c: Config, s: State, w: nat, step: WorkerStep)
    requires w < |s.workers| && WorkNext(c, s, w, step).Some? && !WorkNext(c, s, w, step).value.crashed
    ensures var t := WorkNext(c, s, w, step).value;
            && |t.workers| == |s.workers| && t.workers == s.workers[w := t.workers[w]]
            && t.books.tracker.active == s.books.tracker.active && t.books.completed == s.books.completed
  {
    hide Picked, Greeted, Heard, Resumed, LeaveSession, Verified;
    if step.Pick? { PickIsComplete(s.books.tracker, Has(s.workers[w].bitfield)); }
  }

  /** All steps but three leave the piece of a worker where it is. */
  lemma {:induction false} WorkCarriesOn(c: Config, s: State, w: nat, step: WorkerStep)
    requires w < |s.workers| && WorkNext(c, s, w, step).Some?
    requires !step.Take? && !step.Requeue? && !step.Deliver?
    ensures var t := WorkNext(c, s, w, step).value;
            && |t.workers| == |s.workers| && Carried(t.workers[w]) == Carried(s.workers[w])
            && t.chan == s.chan && t.books.pc == s.books.pc && t.books.tracker.active == s.books.tracker.active
  {
    hide Picked, Greeted, Heard, Resumed, LeaveSession, Verified;
    var x := s.workers[w];
    QuietPhases(c, x);
    if step.Hear? && step.m.Some? { HearingIsQuiet(c, x, step.m.value); }
    if step.Pick? { PickIsComplete(s.books.tracker, Has(x.bitfield)); }
  }

  /** Taking moves a piece from the channel to the worker, requeuing moves it back, delivering hands it
      over. */
  lemma {:induction false} WorkMovesPiece(c: Config, s: State, w: nat, step: WorkerStep, i: nat)
    requires w < |s.workers| && WorkNext(c, s, w, step).Some? && !WorkNext(c, s, w, step).value.crashed
    requires Switched(s) && (step.Take? || step.Requeue? || step.Deliver?)
    ensures var t := WorkNext(c, s, w, step).value;
            && |t.workers| == |s.workers|
            && InChan(t.chan, i) + Carries(t.workers[w], i) + InHand(t.books, i)
               + (if step.Deliver? && s.books.tracker.active then Carries(s.workers[w], i) else 0)
               == InChan(s.chan, i) + Carries(s.workers[w], i) + InHand(s.books, i)
  {
    hide Resumed;
    var x := s.workers[w];
    QuietPhases(c, x);
    if step.Requeue? { ChanGrows(s.chan, x.phase.pw, i); }
  }

  /** A step of a worker loses no piece and makes no copy of one. */
  lemma {:induction false} WorkKeepsCopies(c: Config, s: State, w: nat, step: WorkerStep, i: nat)
    requires w < |s.workers| && WorkNext(c, s, w, step).Some? && !WorkNext(c, s, w, step).value.crashed && Switched(s)
    ensures Copies(WorkNext(c, s, w, step).value, i) <= Copies(s, i)
    ensures !s.books.tracker.active ==> Copies(WorkNext(c, s, w, step).value, i) == Copies(s, i)
  {
    hide WorkNext, InChan, Carriers;
    WorkIsLocal(c, s, w, step);
    CarrierChanges(s.workers, w, WorkNext(c, s, w, step).value.workers[w], i);
    if step.Take? || step.Requeue? || step.Deliver? {
      WorkMovesPiece(c, s, w, step, i);
    } else {
      WorkCarriesOn(c, s, w, step);
    }
  }

  lemma {:induction false} WorkKeepsConserved(c: Config, s: State, w: nat, step: WorkerStep)
    requires w < |s.workers| && WorkNext(c, s, w, step).Some? && !WorkNext(c, s, w, step).value.crashed
    requires Switched(s) && Conserved(c, s)
    ensures Conserved(c, WorkNext(c, s, w, step).value)
  {
    hide WorkNext, Copies;
    WorkIsLocal(c, s, w, step);
    var t := WorkNext(c, s, w, step).value;
    forall i: nat
      ensures if t.books.tracker.active then Copies(t, i) <= Unit(i < Count(c))
              else Copies(t, i) + Unit(i in t.books.completed) == Unit(i < Count(c))
    {
      WorkKeepsCopies(c, s, w, step, i);
    }
  }

  lemma {:induction false} StartedCopies(s: State, a: Addr, i: nat)
    ensures Copies(Started(s, a), i) == Copies(s, i)
  {
    hide Carriers, InChan;
    CarriersGrow(s.workers, NewWorker(a), i);
  }

  /** A result that is judged before endgame is never a duplicate, and moves from the hand to the
      completed pieces. */
  lemma {:induction false} JudgeKeepsCopies(c: Config, s: State, i: nat)
    requires Conserved(c, s) && s.books.pc.Got? && ValidResult(c, s.books.pc.result)
    ensures var t := s.(books := Judged(s.books, s.books.pc.result));
            && t.books.tracker.active == s.books.tracker.active
            && if t.books.tracker.active then Copies(t, i) <= Unit(i < Count(c))
               else Copies(t, i) + Unit(i in t.books.completed) == Unit(i < Count(c))
  {
    hide Carriers, InChan, Completed, Verified;
    var r := s.books.pc.result;
    CompletedStaysActive(s.books.tracker, r.index);
    assert Copies(s, r.index) >= InHand(s.books, r.index);
    assert Copies(s, i) >= 0;
  }

  lemma {:induction false} CollectKeepsConserved(c: Config, s: State, step: CollectorStep)
    requires CollectNext(c, s, step).Some? && Conserved(c, s) && Switched(s) && Stops(c, s.books) && TrackerExact(c, s.books)
    ensures Conserved(c, CollectNext(c, s, step).value)
  {
    hide Carriers, InChan, Verified, Judged, Started, Copies;
    var t := CollectNext(c, s, step).value;
    forall i: nat
      ensures if t.books.tracker.active then Copies(t, i) <= Unit(i < Count(c))
              else Copies(t, i) + Unit(i in t.books.completed) == Unit(i < Count(c))
    {
      if step.Judge? { JudgeKeepsCopies(c, s, i); } else { CollectKeepsCopies(c, s, step, i); }
    }
  }

  lemma DrainKeepsCopies(c: Config, s: State, i: nat)
    requires CollectNext(c, s, Drain).Some? && Switched(s) && TrackerExact(c, s.books)
    ensures var t := CollectNext(c, s, Drain).value;
            && t.books.completed == s.books.completed && t.books.tracker == s.books.tracker && t.books.tracker.active
            && Copies(t, i) <= Copies(s, i)
  {
    hide Carriers, Distinct, IndexSet, GenuineAll, Below;
  }

  /** What the collector does between the receipts of results leaves the pieces where they are. */
  lemma BooksKeepCopies(s: State, b: Books, i: nat)
    requires !s.books.pc.Got? && !b.pc.Got?
    ensures Copies(s.(books := b), i) == Copies(s, i)
  {
    hide Carriers, InChan;
  }

  lemma SignalsKeepCopies(s: State, signals: Signals, i: nat)
    ensures Copies(s.(signals := signals), i) == Copies(s, i)
  {
    hide Carriers, InChan;
  }

  lemma AddKeepsCompleted(b: Books, info: Info, i: nat)
    ensures AddTurn(b, info, i).completed == b.completed && !AddTurn(b, info, i).pc.Got?
    ensures b.tracker.active ==> AddTurn(b, info, i).tracker.active
  {
    hide WorkOf;
  }

  lemma {:induction false} CollectKeepsCopies(c: Config, s: State, step: CollectorStep, i: nat)
    requires CollectNext(c, s, step).Some? && Switched(s) && !step.Judge? && TrackerExact(c, s.books)
    ensures var t := CollectNext(c, s, step).value;
            && t.books.completed == s.books.completed
            && (t.books.tracker.active == s.books.tracker.active || (!s.books.tracker.active && step.Add?))
            && (if t.books.tracker.active then Copies(t, i) <= Copies(s, i) else Copies(t, i) == Copies(s, i))
  {
    hide Copies, TrackerExact, Switched, Added, WorkOf, Started;
    match step
    case Spawn =>
      if s.books.pc.k < |c.peers| {
        StartedCopies(s, c.peers[s.books.pc.k], i);
        StartedKeepsBooks(s, c.peers[s.books.pc.k]);
        BooksKeepCopies(Started(s, c.peers[s.books.pc.k]), s.books.(pc := Spawning(s.books.pc.k + 1)), i);
      } else {
        BooksKeepCopies(s, s.books.(pc := Receiving), i);
        SignalsKeepCopies(s.(books := s.books.(pc := Receiving)), s.signals.(spawner := true), i);
      }
    case Drain => DrainKeepsCopies(c, s, i);
    case Add =>
      AddKeepsCompleted(s.books, c.info, s.books.pc.i);
      BooksKeepCopies(s, AddTurn(s.books, c.info, s.books.pc.i), i);
    case Close =>
      BooksKeepCopies(s, s.books.(pc := Returned(Success)), i);
      SignalsKeepCopies(s.(books := s.books.(pc := Returned(Success))), s.signals.(doneClosed := true), i);
    case Judge =>
    case Write(_) => BooksKeepCopies(s, CollectNext(c, s, step).value.books, i);
    case NoMoreResults => BooksKeepCopies(s, CollectNext(c, s, step).value.books, i);
  }

  lemma StartedKeepsBooks(s: State, a: Addr)
    ensures Started(s, a).books == s.books
  {
  }

  // ---- Workers an address ----

  lemma {:induction false} LiveChanges(workers: seq<Worker>, w: nat, x: Worker, a: Addr)
    requires w < |workers|
    ensures Live(workers[w := x], a) + IsLive(workers[w], a) == Live(workers, a) + IsLive(x, a)
    ensures Live(workers, a) >= IsLive(workers[w], a)
  {
    hide IsLive;
    if w > 0 {
      LiveChanges(workers[1..], w - 1, x, a);
      assert workers[w := x][1..] == workers[1..][w - 1 := x];
    } else {
      assert workers[w := x][1..] == workers[1..];
    }
  }

  lemma {:induction false} LiveGrows(workers: seq<Worker>, x: Worker, a: Addr)
    ensures Live(workers + [x], a) == Live(workers, a) + IsLive(x, a)
  {
    hide IsLive;
    if workers != [] {
      LiveGrows(workers[1..], x, a);
      assert (workers + [x])[1..] == workers[1..] + [x];
    }
  }

  lemma {:induction false} StartKeepsCapped(s: State, a: Addr)
    requires Capped(s)
    ensures Capped(Started(s, a))
  {
    hide Live;
    var t := Started(s, a);
    forall b: Addr ensures Live(t.workers, b) == ActiveOf(t.active, b) <= MAX_WORKERS_PER_PEER {
      LiveGrows(s.workers, NewWorker(a), b);
      assert Live(s.workers, b) == ActiveOf(s.active, b);
    }
  }

  /** A worker keeps its address; it counts until it ends, and is discounted then. */
  lemma {:induction false} WorkKeepsAddress(c: Config, s: State, w: nat, step: WorkerStep)
    requires w < |s.workers| && WorkNext(c, s, w, step).Some?
    ensures var x, t := s.workers[w], WorkNext(c, s, w, step).value;
            && |t.workers| == |s.workers| && t.workers == s.workers[w := t.workers[w]] && t.workers[w].addr == x.addr
            && !x.phase.Gone?
            && (if step.Exit? then t.workers[w].phase.Gone? && t.active == Ended(s.active, x.addr)
                else !t.workers[w].phase.Gone? && t.active == s.active)
  {
    hide Picked, Greeted, Heard, Resumed, LeaveSession, Verified, Ended;
    var x := s.workers[w];
    QuietPhases(c, x);
    if step.Hear? && step.m.Some? { HearingIsQuiet(c, x, step.m.value); }
  }

  lemma {:induction false} WorkKeepsCapped(c: Config, s: State, w: nat, step: WorkerStep)
    requires w < |s.workers| && Capped(s) && WorkNext(c, s, w, step).Some?
    ensures Capped(WorkNext(c, s, w, step).value)
  {
    hide WorkNext, Live;
    WorkKeepsAddress(c, s, w, step);
    var t := WorkNext(c, s, w, step).value;
    forall a: Addr ensures Live(t.workers, a) == ActiveOf(t.active, a) <= MAX_WORKERS_PER_PEER {
      LiveChanges(s.workers, w, t.workers[w], a);
      assert Live(s.workers, a) == ActiveOf(s.active, a);
    }
  }

  // ---- Every step keeps everything ----

  lemma {:induction false} CollectKeepsGenuine(c: Config, s: State, step: CollectorStep)
    requires AllGenuine(c, s) && CollectNext(c, s, step).Some?
    ensures AllGenuine(c, CollectNext(c, s, step).value)
  {
    hide Genuine, ValidResult, Judged, Written, AddTurn;
  }

  lemma {:induction false} CollectKeepsCapped(c: Config, s: State, step: CollectorStep)
    requires Capped(s) && CollectNext(c, s, step).Some?
    ensures Capped(CollectNext(c, s, step).value)
  {
    hide Live, Judged, Written, AddTurn, Started, ActiveOf;
    if step.Spawn? && s.books.pc.k < |c.peers| { StartKeepsCapped(s, c.peers[s.books.pc.k]); }
  }

  lemma {:induction false} EnvKeeps(c: Config, s: State, step: EnvStep)
    requires Inv(c, s) && EnvNext(c, s, step).Some?
    ensures Inv(c, EnvNext(c, s, step).value)
  {
    hide BooksKept, Genuine, ValidResult, Live, ActiveOf, Copies;
    var t := EnvNext(c, s, step).value;
    if step.Discover? {
      StartKeepsCapped(s, step.addr);
      forall i: nat ensures Copies(t, i) == Copies(s, i) { StartedCopies(s, step.addr, i); }
    } else {
      assert forall i: nat :: Copies(t, i) == Copies(s, i) by { SameCopies(s, t); }
    }
  }

  lemma SameCopies(s: State, t: State)
    requires t.chan == s.chan && t.workers == s.workers && t.books == s.books
    ensures forall i: nat :: Copies(t, i) == Copies(s, i)
  {
  }

  lemma {:induction false} CollectKeeps(c: Config, s: State, step: CollectorStep)
    requires Inv(c, s) && CollectNext(c, s, step).Some?
    ensures Inv(c, CollectNext(c, s, step).value)
  {
    hide CollectNext, AllGenuine, TrackerExact, Accounts, Stops, Switched, Conserved, Capped;
    CollectKeepsGenuine(c, s, step);
    CollectKeepsBooks(c, s, step);
    CollectKeepsSwitch(c, s, step);
    CollectKeepsConserved(c, s, step);
    CollectKeepsCapped(c, s, step);
  }

  lemma CrashKeeps(c: Config, s: State)
    requires Inv(c, s)
    ensures Inv(c, s.(crashed := true))
  {
    hide BooksKept, Genuine, ValidResult, Live, Copies;
    SameCopies(s, s.(crashed := true));
  }

  lemma CrashChangesNothing(c: Config, s: State, w: nat, step: WorkerStep)
    requires w < |s.workers| && !s.crashed && WorkNext(c, s, w, step).Some? && WorkNext(c, s, w, step).value.crashed
    ensures WorkNext(c, s, w, step).value == s.(crashed := true)
  {
    hide Picked, Greeted, Heard, Resumed, LeaveSession, Verified, Ended;
  }

  lemma {:induction false} WorkKeeps(c: Config, s: State, w: nat, step: WorkerStep)
    requires w < |s.workers| && Inv(c, s) && !s.crashed && WorkNext(c, s, w, step).Some?
    ensures Inv(c, WorkNext(c, s, w, step).value)
  {
    hide WorkNext, TrackerExact, Accounts, Stops, Switched, Conserved, Capped, GenuineAll, PhaseGenuine;
    if WorkNext(c, s, w, step).value.crashed {
      CrashChangesNothing(c, s, w, step);
      CrashKeeps(c, s);
    } else {
      WorkKeepsGenuine(c, s, w, step);
      WorkKeepsBooks(c, s, w, step);
      WorkKeepsSwitch(c, s, w, step);
      WorkKeepsConserved(c, s, w, step);
      WorkKeepsCapped(c, s, w, step);
    }
  }

  lemma {:induction false} InvStep(c: Config, s: State, step: Step)
    requires Inv(c, s) && Next(c, s, step).Some?
    ensures Inv(c, Next(c, s, step).value)
  {
    hide Inv, CollectNext, EnvNext, WorkNext;
    match step
    case Collect(main) => CollectKeeps(c, s, main);
    case Surround(env) => EnvKeeps(c, s, env);
    case Work(w, act) => WorkKeeps(c, s, w, act);
  }

  lemma {:induction false} RunKeeps(c: Config, s: State, steps: seq<Step>)
    requires Inv(c, s) && Exec(c, s, steps).Some?
    ensures Inv(c, Exec(c, s, steps).value)
    decreases |steps|
  {
    hide Inv, Next;
    if steps != [] {
      InvStep(c, s, steps[0]);
      RunKeeps(c, Next(c, s, steps[0]).value, steps[1..]);
    }
  }

  // ---- The start ----

  lemma {:induction false} FilledChan(info: Info, n: nat, i: nat)
    requires n <= NumPieces(info)
    ensures InChan(WorkUpTo(info, n), i) == Unit(i < n)
    ensures |WorkUpTo(info, n)| == n
    ensures forall k :: 0 <= k < n ==> WorkUpTo(info, n)[k] == WorkOf(info, k)
  {
    hide WorkOf;
    if n > 0 {
      FilledChan(info, n - 1, i);
      assert WorkOf(info, n - 1).index == n - 1 by { WorkIndex(info, n - 1); }
      ChanGrows(WorkUpTo(info, n - 1), WorkOf(info, n - 1), i);
    }
  }

  lemma WorkIndex(info: Info, i: nat)
    requires i < NumPieces(info)
    ensures WorkOf(info, i).index == i
  {
  }

  lemma {:induction false} SizeOfNone(info: Info, k: nat)
    ensures SizeOf(info, {}, k) == 0
  {
    if k > 0 { SizeOfNone(info, k - 1); }
  }

  lemma {:induction false} InitBooksKept(c: Config)
    ensures BooksKept(c, Init(c).books)
  {
    hide SizeOf, WorkUpTo, Genuine, ValidResult, Below;
    SizeOfNone(c.info, Count(c));
    assert LogSet([]) == {};
    assert IndexSet([]) == {};
  }

  lemma {:induction false} InitConserved(c: Config)
    ensures AllGenuine(c, Init(c)) && Conserved(c, Init(c))
  {
    var s := Init(c);
    hide WorkUpTo, InChan;
    FilledChan(c.info, Count(c), 0);
    forall i: nat ensures Copies(s, i) == Unit(i < Count(c)) { FilledChan(c.info, Count(c), i); }
  }

  lemma {:induction false} InitKeeps(c: Config)
    ensures Inv(c, Init(c))
  {
    InitBooksKept(c);
    InitConserved(c);
    hide WorkUpTo, BooksKept, AllGenuine, Conserved;
  }

  /** Every state of every run satisfies the invariant. */
  lemma {:induction false} ReachableKeeps(c: Config, s: State)
    requires Reachable(c, s)
    ensures Inv(c, s)
  {
    hide Inv, Init, Exec;
    var steps :| Exec(c, Init(c), steps) == Some(s);
    InitKeeps(c);
    RunKeeps(c, Init(c), steps);
  }
}
