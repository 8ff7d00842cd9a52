/** The download as a system of steps: one collector, any number of peer workers, the channels between
    them, and the switch to endgame. A run is any interleaving of enabled steps; what the network, the
    timers and the disk decide is part of the step. */
module Engine {
  import opened Prelude
  import opened Message
  import opened Bitfield
  import opened Metainfo
  import opened Endgame
  import opened PieceDownload

  type Addr = seq<byte>

  datatype Config = Config(info: Info, sha1: Bytes -> Bytes, peers: seq<Addr>)

  function Count(c: Config): nat { NumPieces(c.info) }

  /** The work for one piece. */
  function WorkOf(info: Info, i: nat): PieceWork
    requires i < NumPieces(info)
  {
    PieceWork(i, info.pieces[i], PieceSize(info, i))
  }

  datatype PieceResult = PieceResult(index: nat, data: Bytes, failed: bool)

  // ---- Workers ----

  const MAX_RECONNECTS := 3
  const MAX_MISSES := 15
  const MAX_WORKERS_PER_PEER := 2

  /** How a worker came by its piece: from the work channel, or from the endgame tracker. */
  datatype Mode = Normal | Race

  /** What a worker does once it has put its piece back. */
  datatype Afterwards = Retry | AwaitUnchoke | Leave

  datatype Phase =
    | Attempting
    | Dialing
    | Greeting
    | Top
    | AtSignal
    | Waiting
    | Picking
    | Taken(pw: PieceWork)
    | Loading(pw: PieceWork, mode: Mode)
    | Requeuing(pw: PieceWork, next: Afterwards)
    | AwaitingUnchoke
    | Delivering(result: PieceResult, mode: Mode)
    | Exiting
    | Gone

  datatype Worker = Worker(addr: Addr, attempt: nat, bitfield: Option<Bits>, misses: nat, phase: Phase)

  function NewWorker(addr: Addr): Worker { Worker(addr, 0, None, 0, Attempting) }

  /** The connection is given up; the worker tries again unless it has used up its attempts. */
  function LeaveSession(x: Worker): Worker {
    Worker(x.addr, x.attempt + 1, None, 0, if x.attempt < MAX_RECONNECTS then Attempting else Exiting)
  }

  function Has(bitfield: Option<Bits>): nat -> bool {
    (i: nat) => bitfield.None? || HasPiece(bitfield.value, i)
  }

  /** One received message while the worker waits to be unchoked for the first time. */
  function Greeted(x: Worker, m: Option<Msg>, numPieces: nat): Worker {
    if m.None? then x
    else if m.value.id == MSG_BITFIELD then x.(bitfield := Some(m.value.payload))
    else if m.value.id == MSG_UNCHOKE then x.(phase := Top)
    else if m.value.id == MSG_HAVE then
      match ParseHave(m.value.payload)
      case Err(_) => x
      case Ok(i) => 
        var bf := if x.bitfield.Some? then x.bitfield.value else NewBitfield(numPieces);
        x.(bitfield := Some(SetPiece(bf, i)))
    else x
  }

  /** One received message while the worker waits to be unchoked again. */
  function Heard(x: Worker, m: Option<Msg>): Worker {
    if m.None? then x
    else if m.value.id == MSG_UNCHOKE then x.(phase := Top)
    else if m.value.id == MSG_HAVE && x.bitfield.Some? then
      match ParseHave(m.value.payload)
      case Err(_) => x
      case Ok(i) => x.(bitfield := Some(SetPiece(x.bitfield.value, i)))
    else x
  }

  /** The piece a worker holds in normal mode, on its way from the work channel. */
  function Carried(x: Worker): Option<nat> {
    match x.phase
    case Taken(pw) => Some(pw.index)
    case Loading(pw, Normal) => Some(pw.index)
    case Requeuing(pw, _) => Some(pw.index)
    case Delivering(r, Normal) => Some(r.index)
    case _ => None
  }

  // ---- The collector ----

  /** A failed write ends the download; the result that was being written is remembered. */
  datatype Outcome = Success | WriteFailed(result: PieceResult) | AllFailed

  datatype Pc =
    | Spawning(k: nat)
    | Receiving
    | Got(result: PieceResult)
    | Writing(result: PieceResult)
    | Adding(i: nat)
    | Draining
    | Closing
    | Returned(outcome: Outcome)

  /** What the collector keeps, with the tracker it shares with the workers. `log` is the history of the
      pieces that were written. */
  datatype Books = Books(pc: Pc, tracker: Tracker, completed: set<nat>, done: nat, downloaded: nat, bytes: int,
                         log: seq<PieceResult>)

  /** A result is passed over, or marked completed and sent on to the writer. */
  function Judged(b: Books, r: PieceResult): Books {
    if r.failed || r.index in b.completed then b.(pc := Receiving)
    else b.(pc := Writing(r), completed := b.completed + {r.index},
            tracker := if b.tracker.active then Completed(b.tracker, r.index).0 else b.tracker)
  }

  /** Where the collector goes with `done` pieces written: to the end, to endgame, or to the next result. */
  function Onward(done: nat, numPieces: nat, active: bool): Pc {
    if done >= numPieces then Closing
    else if numPieces - done <= ENDGAME_THRESHOLD && !active then Adding(0)
    else Receiving
  }

  /** After a successful write. */
  function Written(b: Books, r: PieceResult, numPieces: nat): Books {
    b.(done := b.done + 1, downloaded := b.downloaded + 1, bytes := b.bytes + |r.data|, log := b.log + [r],
       pc := Onward(b.done + 1, numPieces, b.tracker.active))
  }

  /** One turn of the loop that fills the tracker, and its end. */
  function AddTurn(b: Books, info: Info, i: nat): Books {
    if i < NumPieces(info) then
      b.(pc := Adding(i + 1), tracker := if i in b.completed then b.tracker else Added(b.tracker, WorkOf(info, i)))
    else b.(pc := Draining, tracker := b.tracker.(active := true))
  }

  // ---- The system ----

  datatype Signals = Signals(doneClosed: bool, egClosed: bool, resultClosed: bool, waited: bool, spawner: bool)

  /** `crashed` is set by a send on the closed result channel. */
  datatype State = State(workers: seq<Worker>, chan: seq<PieceWork>, signals: Signals, active: map<Addr, nat>,
                         books: Books, crashed: bool)

  function ActiveOf(active: map<Addr, nat>, a: Addr): nat { if a in active then active[a] else 0 }

  /** startWorker: at most two workers an address. */
  function Started(s: State, a: Addr): State {
    if ActiveOf(s.active, a) >= MAX_WORKERS_PER_PEER then s
    else s.(active := s.active[a := ActiveOf(s.active, a) + 1], workers := s.workers + [NewWorker(a)])
  }

  function Ended(active: map<Addr, nat>, a: Addr): map<Addr, nat> {
    if ActiveOf(active, a) <= 1 then active - {a} else active[a := ActiveOf(active, a) - 1]
  }

  /** The work of the first `n` pieces, in order. */
  function WorkUpTo(info: Info, n: nat): seq<PieceWork>
    requires n <= NumPieces(info)
  {
    if n == 0 then [] else WorkUpTo(info, n - 1) + [WorkOf(info, n - 1)]
  }

  /** When the work channel is filled. */
  function Init(c: Config): State {
    State([], WorkUpTo(c.info, Count(c)), Signals(false, false, false, false, false), map[],
          Books(Spawning(0), EMPTY, {}, 0, 0, 0, []), false)
  }

  datatype Step =
    | Collect(main: CollectorStep)
    | Surround(env: EnvStep)
    | Work(w: nat, act: WorkerStep)

  datatype CollectorStep = Spawn | Judge | Write(ok: bool) | Add | Drain | Close | NoMoreResults

  datatype EnvStep = Discover(addr: Addr) | SpawnerStops | WaitReturns | CloseResults

  /** `Hear(None)` is a failed or timed-out connection; `Hear(Some(None))` a keep-alive. */
  datatype WorkerStep =
    | CheckDone
    | Dial(ok: bool)
    | Hear(m: Option<Option<Msg>>)
    | CheckSignal
    | SeeDone
    | SeeSignal
    | Take
    | Pick
    | Inspect
    | Load(data: Bytes)
    | LoadFails(choked: bool)
    | Requeue
    | Deliver
    | Exit

  function CollectNext(c: Config, s: State, step: CollectorStep): Option<State> {
    var b := s.books;
    match step
    case Spawn =>
      if !b.pc.Spawning? then None
      else if b.pc.k < |c.peers| then
        Some(Started(s, c.peers[b.pc.k]).(books := b.(pc := Spawning(b.pc.k + 1))))
      else Some(s.(books := b.(pc := Receiving), signals := s.signals.(spawner := true)))
    case Judge => if b.pc.Got? then Some(s.(books := Judged(b, b.pc.result))) else None
    case Write(ok) =>
      if !b.pc.Writing? then None
      else if ok then Some(s.(books := Written(b, b.pc.result, Count(c))))
      else Some(s.(books := b.(pc := Returned(WriteFailed(b.pc.result)))))
    case Add => if b.pc.Adding? then Some(s.(books := AddTurn(b, c.info, b.pc.i))) else None
    case Drain =>
      if !b.pc.Draining? then None
      else if s.chan != [] then Some(s.(chan := s.chan[1..]))
      else Some(s.(signals := s.signals.(egClosed := true), books := b.(pc := Receiving)))
    case Close =>
      if !b.pc.Closing? then None
      else Some(s.(signals := s.signals.(doneClosed := true), books := b.(pc := Returned(Success))))
    case NoMoreResults =>
      if !b.pc.Receiving? || !s.signals.resultClosed then None
      else Some(s.(books := b.(pc := Returned(if b.done < Count(c) then AllFailed else Success))))
  }

  predicate AllGone(workers: seq<Worker>) { forall w :: 0 <= w < |workers| ==> workers[w].phase.Gone? }

  function EnvNext(c: Config, s: State, step: EnvStep): Option<State> {
    match step
    case Discover(a) => if s.signals.spawner then Some(Started(s, a)) else None
    case SpawnerStops =>
      if s.signals.spawner && s.signals.doneClosed then Some(s.(signals := s.signals.(spawner := false))) else None
    case WaitReturns =>
      if !s.books.pc.Spawning? && !s.signals.waited && AllGone(s.workers)
      then Some(s.(signals := s.signals.(waited := true))) else None
    case CloseResults =>
      if s.signals.waited && !s.signals.resultClosed
      then Some(s.(signals := s.signals.(resultClosed := true))) else None
  }

  function With(s: State, w: nat, x: Worker): State
    requires w < |s.workers|
  {
    s.(workers := s.workers[w := x])
  }

  function WorkNext(c: Config, s: State, w: nat, step: WorkerStep): Option<State>
    requires w < |s.workers|
  {
    var x := s.workers[w];
    var p := x.phase;
    match step
    case CheckDone =>
      if p.Attempting? then Some(With(s, w, x.(phase := if s.signals.doneClosed then Exiting else Dialing)))
      else if p.Top? then Some(With(s, w, if s.signals.doneClosed then LeaveSession(x) else x.(phase := AtSignal)))
      else None
    case Dial(ok) =>
      if !p.Dialing? then None else Some(With(s, w, if ok then x.(phase := Greeting) else LeaveSession(x)))
    case Hear(m) =>
      if p.Greeting? then Some(With(s, w, if m.None? then LeaveSession(x) else Greeted(x, m.value, Count(c))))
      else if p.AwaitingUnchoke? then Some(With(s, w, if m.None? then LeaveSession(x) else Heard(x, m.value)))
      else None
    case CheckSignal =>
      if !p.AtSignal? then None else Some(With(s, w, x.(phase := if s.signals.egClosed then Picking else Waiting)))
    case SeeDone => if p.Waiting? && s.signals.doneClosed then Some(With(s, w, LeaveSession(x))) else None
    case SeeSignal => if p.Waiting? && s.signals.egClosed then Some(With(s, w, x.(phase := Top))) else None
    case Take =>
      if !p.Waiting? || s.chan == [] then None
      else Some(With(s, w, x.(phase := Taken(s.chan[0]))).(chan := s.chan[1..]))
    case Pick =>
      if !p.Picking? then None
      else
        var (tracker, r) := Picked(s.books.tracker, Has(x.bitfield));
        var y := if r.None? then LeaveSession(x) else x.(phase := Loading(r.value, Race));
        Some(With(s, w, y).(books := s.books.(tracker := tracker)))
    case Inspect =>
      if !p.Taken? then None
      else Some(With(s, w, if Has(x.bitfield)(p.pw.index) then x.(misses := 0, phase := Loading(p.pw, Normal))
                           else x.(phase := Requeuing(p.pw, Retry))))
    case Load(data) =>
      if !p.Loading? || !Verified(p.pw, data, c.sha1) then None
      else Some(With(s, w, x.(phase := Delivering(PieceResult(p.pw.index, data, false), p.mode))))
    case LoadFails(choked) =>
      if !p.Loading? then None
      else
        var next := if choked then AwaitUnchoke else Leave;
        Some(With(s, w, if p.mode.Normal? then x.(phase := Requeuing(p.pw, next)) else Resumed(x, next)))
    case Requeue =>
      if !p.Requeuing? || |s.chan| >= Count(c) then None
      else Some(With(s, w, Resumed(x, p.next)).(chan := s.chan + [p.pw]))
    case Deliver =>
      if !p.Delivering? then None
      else if s.signals.resultClosed then Some(s.(crashed := true))
      else if s.books.pc.Receiving? then Some(With(s, w, x.(phase := Top)).(books := s.books.(pc := Got(p.result))))
      else None
    case Exit =>
      if !p.Exiting? then None else Some(With(s, w, x.(phase := Gone)).(active := Ended(s.active, x.addr)))
  }

  /** How a worker goes on after a piece that it did not get. */
  function Resumed(x: Worker, next: Afterwards): Worker {
    match next
    case Retry =>
      if x.misses + 1 >= MAX_MISSES then LeaveSession(x) else x.(misses := x.misses + 1, phase := Top)
    case AwaitUnchoke => x.(phase := AwaitingUnchoke)
    case Leave => LeaveSession(x)
  }

  function Next(c: Config, s: State, step: Step): Option<State> {
    if s.crashed then None
    else match step
      case Collect(main) => CollectNext(c, s, main)
      case Surround(env) => EnvNext(c, s, env)
      case Work(w, act) => if w < |s.workers| then WorkNext(c, s, w, act) else None
  }

  /** A run: every step must be enabled when its turn comes. */
  function Exec(c: Config, s: State, steps: seq<Step>): Option<State>
    decreases |steps|
  {
    if steps == [] then Some(s)
    else match Next(c, s, steps[0])
      case None => None
      case Some(t) => Exec(c, t, steps[1..])
  }

  ghost predicate Reachable(c: Config, s: State) { exists steps :: Exec(c, Init(c), steps) == Some(s) }
}
