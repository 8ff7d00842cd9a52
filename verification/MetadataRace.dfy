/** Fetching the info dictionary from many peers at once: one goroutine a peer, at most ten at a time, the
    first success wins. */
module MetadataRace {
  import opened Prelude
  import opened PeerConn
  import Metadata
  import Metainfo

  type Info = Metainfo.Info

  /** `limit` is the size of the largest buffer that can be made. */
  datatype Config = Config(peers: nat, limit: nat, sha1: seq<byte> -> seq<byte>, infoHash: seq<byte>)

  const MAX_CONCURRENT := 10

  /** `Leaving` and `Ended` remember what was sent, or that nothing was because another peer had won. */
  datatype Phase =
    | Queued
    | Holding
    | Trying
    | Sending(result: Option<Info>)
    | Leaving(sent: Option<Option<Info>>)
    | Ended(sent: Option<Option<Info>>)

  datatype Pc = Receiving | Returned(info: Option<Info>)

  /** `tried` is the history of what each peer sent, or None where the connection failed; `crashed` is set when an
      announced size stops the program. */
  datatype State = State(phases: seq<Phase>, slots: nat, results: seq<Option<Info>>, received: nat, won: bool, pc: Pc,
                         tried: map<nat, Option<Inbox>>, crashed: bool)

  function Init(c: Config): State { State(seq(c.peers, _ => Queued), 0, [], 0, false, Receiving, map[], false) }

  /** `Try(None)` is a connection that never got to the messages. */
  datatype Action = Acquire | Check | Try(inbox: Option<Inbox>) | Send | Release

  datatype Step = Fetch(g: nat, act: Action) | Receive

  function ResultOf(c: Config, inbox: Option<Inbox>): Option<Info> {
    if inbox.None? then None
    else match Metadata.Outcome(inbox.value, c.limit, c.sha1, c.infoHash) case Ok(info) => Some(info) case Err(_) => None
  }

  /** The handshake announces a metadata size that cannot be allocated: the fetch stops the program. */
  predicate Panics(c: Config, inbox: Inbox) {
    var size := Metadata.HeardSize(inbox);
    size.Some? && !Metadata.Allocates(size.value, c.limit)
  }

  function FetchNext(c: Config, s: State, g: nat, act: Action): Option<State>
    requires g < |s.phases|
  {
    var p := s.phases[g];
    match act
    case Acquire =>
      if !p.Queued? || s.slots >= MAX_CONCURRENT then None
      else Some(s.(phases := s.phases[g := Holding], slots := s.slots + 1))
    case Check =>
      if !p.Holding? then None else Some(s.(phases := s.phases[g := if s.won then Leaving(None) else Trying]))
    case Try(inbox) =>
      if !p.Trying? then None
      else
        var t := s.(tried := s.tried[g := inbox]);
        if inbox.Some? && Panics(c, inbox.value) then Some(t.(crashed := true))
        else Some(t.(phases := s.phases[g := Sending(ResultOf(c, inbox))]))
    case Send =>
      if !p.Sending? || |s.results| >= c.peers then None
      else Some(s.(phases := s.phases[g := Leaving(Some(p.result))], results := s.results + [p.result]))
    case Release =>
      if !p.Leaving? || s.slots == 0 then None
      else Some(s.(phases := s.phases[g := Ended(p.sent)], slots := s.slots - 1))
  }

  function Next(c: Config, s: State, step: Step): Option<State> {
    if s.crashed then None
    else match step
    case Fetch(g, act) => if g < |s.phases| then FetchNext(c, s, g, act) else None
    case Receive =>
      if s.pc.Returned? then None
      else if s.received == c.peers then Some(s.(pc := Returned(None)))
      else if s.results == [] then None
      else
        var t := s.(results := s.results[1..], received := s.received + 1);
        Some(if s.results[0].Some? then t.(won := true, pc := Returned(s.results[0])) else t)
  }

  function Exec(c: Config, s: State, steps: seq<Step>): Option<State>
    decreases |steps|
  {
    if steps == [] then Some(s)
    else match Next(c, s, steps[0])
      case None => None
      case Some(t) => Exec(c, t, steps[1..])
  }

  ghost predicate Reachable(c: Config, s: State) { exists steps :: Exec(c, Init(c), steps) == Some(s) }

  // ---- The invariant ----

  predicate Busy(p: Phase) { p.Holding? || p.Trying? || p.Sending? || p.Leaving? }

  predicate HasSent(p: Phase) { (p.Leaving? || p.Ended?) && p.sent.Some? }

  predicate SentInfo(p: Phase) { HasSent(p) && p.sent.value.Some? }

  predicate Bailed(p: Phase) { (p.Leaving? || p.Ended?) && p.sent.None? }

  ghost function Count(phases: seq<Phase>, f: Phase -> bool): nat {
    if phases == [] then 0 else (if f(phases[0]) then 1 else 0) + Count(phases[1..], f)
  }

  ghost function Infos(results: seq<Option<Info>>): nat {
    if results == [] then 0 else (if results[0].Some? then 1 else 0) + Infos(results[1..])
  }

  /** The info came from the messages of some peer. */
  ghost predicate Fetched(c: Config, tried: map<nat, Option<Inbox>>, r: Option<Info>) {
    r.Some? ==> exists g :: g in tried && tried[g].Some?
                            && Metadata.Outcome(tried[g].value, c.limit, c.sha1, c.infoHash) == Ok(r.value)
  }

  /** What a fetch sends is what its own peer's messages lead to. */
  ghost predicate Truthful(c: Config, s: State) {
    forall g :: 0 <= g < |s.phases| ==>
      && (s.phases[g].Sending? ==> g in s.tried && s.phases[g].result == ResultOf(c, s.tried[g]))
      && (HasSent(s.phases[g]) ==> g in s.tried && s.phases[g].sent.value == ResultOf(c, s.tried[g]))
      && (g in s.tried && !s.crashed ==> s.phases[g].Sending? || HasSent(s.phases[g]))
  }

  ghost predicate Sourced(c: Config, s: State) {
    && Truthful(c, s)
    && (forall k :: 0 <= k < |s.results| ==> Fetched(c, s.tried, s.results[k]))
    && (s.pc.Returned? ==> Fetched(c, s.tried, s.pc.info))
  }

  ghost predicate CrashExplained(c: Config, s: State) {
    s.crashed <==> exists g :: g in s.tried && s.tried[g].Some? && Panics(c, s.tried[g].value)
  }

  ghost predicate Inv(c: Config, s: State) {
    && |s.phases| == c.peers
    && s.slots == Count(s.phases, Busy) <= MAX_CONCURRENT
    && Count(s.phases, HasSent) == |s.results| + s.received && s.received <= c.peers
    && (s.won <==> s.pc.Returned? && s.pc.info.Some?)
    && (!s.won ==> Count(s.phases, Bailed) == 0 && Count(s.phases, SentInfo) == Infos(s.results))
    && (s.pc == Returned(None) ==> s.received == c.peers)
  }

  // ---- Counting ----

  lemma {:induction false} CountChanges(phases: seq<Phase>, g: nat, p: Phase, f: Phase -> bool)
    requires g < |phases|
    ensures Count(phases[g := p], f) + (if f(phases[g]) then 1 else 0) == Count(phases, f) + if f(p) then 1 else 0
  {
    if g > 0 {
      CountChanges(phases[1..], g - 1, p, f);
      assert phases[g := p][1..] == phases[1..][g - 1 := p];
    } else {
      assert phases[g := p][1..] == phases[1..];
    }
  }

  lemma {:induction false} CountBounds(phases: seq<Phase>, f: Phase -> bool)
    ensures Count(phases, f) <= |phases|
    ensures Count(phases, f) == |phases| <==> forall g :: 0 <= g < |phases| ==> f(phases[g])
    ensures Count(phases, f) == 0 <==> forall g :: 0 <= g < |phases| ==> !f(phases[g])
  {
    if phases != [] {
      CountBounds(phases[1..], f);
      assert forall g :: 1 <= g < |phases| ==> phases[g] == phases[1..][g - 1];
      assert forall g :: 0 <= g < |phases| - 1 ==> phases[1..][g] == phases[g + 1];
    }
  }

  lemma {:induction false} InfosGrow(results: seq<Option<Info>>, r: Option<Info>)
    ensures Infos(results + [r]) == Infos(results) + if r.Some? then 1 else 0
  {
    if results != [] {
      InfosGrow(results[1..], r);
      assert (results + [r])[1..] == results[1..] + [r];
    }
  }

  lemma {:induction false} FetchKeeps(c: Config, s: State, g: nat, act: Action)
    requires Inv(c, s) && g < |s.phases| && FetchNext(c, s, g, act).Some?
    ensures Inv(c, FetchNext(c, s, g, act).value)
  {
    hide Count, Infos, ResultOf, Panics;
    var p := FetchNext(c, s, g, act).value.phases[g];
    CountChanges(s.phases, g, p, Busy);
    CountChanges(s.phases, g, p, HasSent);
    CountChanges(s.phases, g, p, SentInfo);
    CountChanges(s.phases, g, p, Bailed);
    if act.Send? { InfosGrow(s.results, s.phases[g].result); }
  }

  lemma {:induction false} StepKeeps(c: Config, s: State, step: Step)
    requires Inv(c, s) && Next(c, s, step).Some?
    ensures Inv(c, Next(c, s, step).value)
  {
    hide FetchNext, Count;
    match step
    case Fetch(g, act) => FetchKeeps(c, s, g, act);
    case Receive => CountBounds(s.phases, HasSent);
  }

  lemma TriedMore(c: Config, tried: map<nat, Option<Inbox>>, g: nat, inbox: Option<Inbox>, r: Option<Info>)
    requires g !in tried
    ensures Fetched(c, tried, r) ==> Fetched(c, tried[g := inbox], r)
  {
    hide Metadata.Outcome;
    if Fetched(c, tried, r) && r.Some? {
      var h :| h in tried && tried[h].Some? && Metadata.Outcome(tried[h].value, c.limit, c.sha1, c.infoHash) == Ok(r.value);
      assert tried[g := inbox][h] == tried[h];
    }
  }

  lemma OwnResult(c: Config, tried: map<nat, Option<Inbox>>, g: nat)
    ensures g in tried ==> Fetched(c, tried, ResultOf(c, tried[g]))
    ensures Fetched(c, tried, None)
  {
    hide Metadata.Outcome;
  }

  lemma {:induction false} StepKeepsTruthful(c: Config, s: State, step: Step)
    requires Truthful(c, s) && Next(c, s, step).Some?
    ensures Truthful(c, Next(c, s, step).value)
  {
    hide ResultOf, Panics;
  }

  lemma {:induction false} StepKeepsSourced(c: Config, s: State, step: Step)
    requires Sourced(c, s) && Next(c, s, step).Some?
    ensures Sourced(c, Next(c, s, step).value)
  {
    StepKeepsTruthful(c, s, step);
    hide Fetched, Panics, ResultOf;
    OwnResult(c, s.tried, 0);
    if step.Fetch? && step.act.Try? {
      var t := s.tried[step.g := step.act.inbox];
      assert step.g !in s.tried;
      forall r | Fetched(c, s.tried, r) ensures Fetched(c, t, r) { TriedMore(c, s.tried, step.g, step.act.inbox, r); }
    }
    if step.Fetch? && step.act.Send? {
      OwnResult(c, s.tried, step.g);
    }
  }

  lemma {:induction false} StepExplainsCrash(c: Config, s: State, step: Step)
    requires CrashExplained(c, s) && Sourced(c, s) && Next(c, s, step).Some?
    ensures CrashExplained(c, Next(c, s, step).value)
  {
    hide Panics, ResultOf, Fetched;
    var t := Next(c, s, step).value;
    if step.Fetch? && step.act.Try? {
      assert step.g !in s.tried;
      assert t.tried[step.g] == step.act.inbox;
      assert forall g :: g in s.tried ==> g in t.tried && t.tried[g] == s.tried[g];
    }
  }

  lemma {:induction false} RunKeeps(c: Config, s: State, steps: seq<Step>)
    requires Inv(c, s) && Sourced(c, s) && CrashExplained(c, s) && Exec(c, s, steps).Some?
    ensures Inv(c, Exec(c, s, steps).value) && Sourced(c, Exec(c, s, steps).value)
    ensures CrashExplained(c, Exec(c, s, steps).value)
    decreases |steps|
  {
    hide Inv, Sourced, Next, CrashExplained;
    if steps != [] {
      StepKeeps(c, s, steps[0]);
      StepKeepsSourced(c, s, steps[0]);
      StepExplainsCrash(c, s, steps[0]);
      RunKeeps(c, Next(c, s, steps[0]).value, steps[1..]);
    }
  }

  lemma {:induction false} ReachableKeeps(c: Config, s: State)
    requires Reachable(c, s)
    ensures Inv(c, s) && Sourced(c, s) && CrashExplained(c, s)
  {
    hide Exec, Count;
    var steps :| Exec(c, Init(c), steps) == Some(s);
    CountBounds(Init(c).phases, Busy);
    CountBounds(Init(c).phases, HasSent);
    CountBounds(Init(c).phases, SentInfo);
    CountBounds(Init(c).phases, Bailed);
    RunKeeps(c, Init(c), steps);
  }

  // ---- Main results ----

  /** A fetch that leaves the race going yields the outcome of its messages, and one that stops the program is
      one whose outcome is the failed allocation. */
  lemma {:induction false} PanicIsTheOutcome(c: Config, inbox: Inbox)
    ensures Panics(c, inbox) <==> Metadata.Outcome(inbox, c.limit, c.sha1, c.infoHash) == Err(Metadata.CannotAllocate)
  {
    hide Metadata.Outcome, Metadata.HeardSize;
    Metadata.StopsOnBadSize(inbox, c.limit, c.sha1, c.infoHash);
  }

  /** The program is stopped exactly when the handshake of some peer announced a size that is negative or too
      large to allocate. */
  lemma {:induction false} CrashesOnBadSize(c: Config, s: State)
    requires Reachable(c, s)
    ensures s.crashed <==> exists g :: g in s.tried && s.tried[g].Some? && Panics(c, s.tried[g].value)
  {
    hide Reachable, Panics, Inv, Sourced;
    ReachableKeeps(c, s);
  }

  ghost predicate CanCrash(c: Config) { exists s :: Reachable(c, s) && s.crashed }

  /** The first peer is tried, and announces a negative size. */
  lemma {:induction false} ANegativeSizeCrashes(c: Config) returns (s: State)
    requires c.peers > 0
    ensures Reachable(c, s) && s.crashed && s.tried == map[0 := Some(Metadata.Announcing(-1))]
  {
    hide Metadata.Announcing, Metadata.HeardSize, Metadata.Outcome;
    var inbox := Metadata.Announcing(-1);
    Metadata.AnySizeCanBeAnnounced(-1);
    var a, b, d := Fetch(0, Acquire), Fetch(0, Check), Fetch(0, Try(Some(inbox)));
    var s0 := Init(c);
    var s1 := Next(c, s0, a).value;
    var s2 := Next(c, s1, b).value;
    s := Next(c, s2, d).value;
    ThreeSteps(c, s0, a, b, d);
    assert Exec(c, Init(c), [a, b, d]) == Some(s);
  }

  lemma ThreeSteps(c: Config, s: State, a: Step, b: Step, d: Step)
    requires Next(c, s, a).Some? && Next(c, Next(c, s, a).value, b).Some?
    requires Next(c, Next(c, Next(c, s, a).value, b).value, d).Some?
    ensures Exec(c, s, [a, b, d]) == Next(c, Next(c, Next(c, s, a).value, b).value, d)
  {
    hide Next;
    var t := Next(c, Next(c, s, a).value, b).value;
    assert [a, b, d][1..] == [b, d] && [b, d][1..] == [d] && [d][1..] == [];
    assert Exec(c, t, [d]) == Next(c, t, d);
    assert Exec(c, Next(c, s, a).value, [b, d]) == Exec(c, t, [d]);
  }

  /** Whoever asks at least one peer can be stopped by it. */
  lemma {:induction false} CanCrashIffPeers(c: Config)
    ensures CanCrash(c) <==> c.peers > 0
  {
    hide Panics, Next;
    if c.peers > 0 {
      var s := ANegativeSizeCrashes(c);
    } else if CanCrash(c) {
      var s :| Reachable(c, s) && s.crashed;
      var steps :| Exec(c, Init(c), steps) == Some(s);
      NoPeersNoCrash(c, Init(c), steps);
    }
  }

  lemma {:induction false} NoPeersNoCrash(c: Config, s: State, steps: seq<Step>)
    requires s.phases == [] && !s.crashed && Exec(c, s, steps).Some?
    ensures !Exec(c, s, steps).value.crashed
    decreases |steps|
  {
    if steps != [] { NoPeersNoCrash(c, Next(c, s, steps[0]).value, steps[1..]); }
  }

  /** At most ten fetches run at a time, and none ever waits to send its result. */
  lemma {:induction false} SendNeverBlocks(c: Config, s: State, g: nat)
    requires Reachable(c, s) && !s.crashed && g < |s.phases|
    ensures Count(s.phases, Busy) <= 10
    ensures s.phases[g].Sending? ==> Next(c, s, Fetch(g, Send)).Some?
  {
    hide Reachable, Count;
    ReachableKeeps(c, s);
    CountBounds(s.phases, HasSent);
  }

  /** Until it returns or is stopped, the race can always go on: the receiver never waits for a result that nobody will
      send, although fetches that come too late send none. */
  lemma {:induction false} NeverStuck(c: Config, s: State)
    requires Reachable(c, s) && !s.crashed && s.pc.Receiving?
    ensures exists step :: Next(c, s, step).Some?
  {
    hide Reachable, Count, ResultOf;
    ReachableKeeps(c, s);
    if s.received == c.peers || s.results != [] {
      assert Next(c, s, Receive).Some?;
    } else {
      CountBounds(s.phases, HasSent);
      CountBounds(s.phases, Bailed);
      var g :| 0 <= g < |s.phases| && !HasSent(s.phases[g]);
      assert !Bailed(s.phases[g]);
      SomeoneCanGo(c, s, g);
    }
  }

  lemma SomeoneCanGo(c: Config, s: State, g: nat)
    requires Inv(c, s) && !s.crashed && g < |s.phases| && !HasSent(s.phases[g]) && !Bailed(s.phases[g])
    ensures exists step :: Next(c, s, step).Some?
  {
    hide Count, ResultOf;
    CountBounds(s.phases, HasSent);
    CountBounds(s.phases, Busy);
    match s.phases[g]
    case Queued =>
      if s.slots < MAX_CONCURRENT {
        assert Next(c, s, Fetch(g, Acquire)).Some?;
      } else {
        var h :| 0 <= h < |s.phases| && Busy(s.phases[h]);
        BusyCanGo(c, s, h);
      }
    case _ => BusyCanGo(c, s, g);
  }

  lemma BusyCanGo(c: Config, s: State, h: nat)
    requires Inv(c, s) && !s.crashed && h < |s.phases| && Busy(s.phases[h])
    ensures exists step :: Next(c, s, step).Some?
  {
    hide Count, ResultOf;
    CountBounds(s.phases, HasSent);
    CountBounds(s.phases, Busy);
    var act := match s.phases[h]
      case Holding => Check
      case Trying => Try(None)
      case Sending(_) => Send
      case _ => Release;
    assert Next(c, s, Fetch(h, act)).Some?;
  }

  /** The race fails only if every peer was tried, and for each the connection failed or its messages did not lead
      to an info. */
  lemma {:induction false} FailsOnlyIfAllFail(c: Config, s: State, g: nat)
    requires Reachable(c, s) && s.pc == Returned(None) && g < c.peers
    ensures g in s.tried && (s.tried[g].None? || Metadata.Outcome(s.tried[g].value, c.limit, c.sha1, c.infoHash).Err?)
  {
    hide Reachable, Count, Metadata.Outcome;
    ReachableKeeps(c, s);
    CountBounds(s.phases, HasSent);
    CountBounds(s.phases, SentInfo);
    assert HasSent(s.phases[g]) && !SentInfo(s.phases[g]);
  }

  /** A fetch whose turn comes after another peer has won asks nobody; before, it tries its peer. */
  lemma LateFetchesBail(c: Config, s: State, g: nat)
    requires !s.crashed && g < |s.phases| && s.phases[g].Holding?
    ensures Next(c, s, Fetch(g, Check)).Some?
    ensures var t := Next(c, s, Fetch(g, Check)).value;
            && t.tried == s.tried
            && (s.won ==> t.phases[g] == Leaving(None)) && (!s.won ==> t.phases[g] == Trying)
  {
  }

  /** In every run a fetch begins exactly when fewer than ten are under way, hands over its result as it is, and makes
      room for another when it ends. */
  lemma {:induction false} FetchesMakeRoom(c: Config, s: State, g: nat)
    requires Reachable(c, s) && !s.crashed && g < |s.phases|
    ensures s.phases[g].Queued? ==> (Next(c, s, Fetch(g, Acquire)).Some? <==> Count(s.phases, Busy) < 10)
    ensures s.phases[g].Sending? && Next(c, s, Fetch(g, Send)).Some? ==>
              Next(c, s, Fetch(g, Send)).value.results == s.results + [s.phases[g].result]
    ensures s.phases[g].Leaving? ==>
              && Next(c, s, Fetch(g, Release)).Some?
              && Next(c, s, Fetch(g, Release)).value.phases == s.phases[g := Ended(s.phases[g].sent)]
              && Count(Next(c, s, Fetch(g, Release)).value.phases, Busy) == Count(s.phases, Busy) - 1
  {
    hide Reachable, Count, ResultOf;
    ReachableKeeps(c, s);
    if s.phases[g].Leaving? { CountChanges(s.phases, g, Ended(s.phases[g].sent), Busy); }
  }

  /** In every run the results are received in the order in which they were sent: the first info ends the race, a
      failure is one more, and the race gives up exactly when all peers have failed. */
  lemma {:induction false} ReceivesInOrder(c: Config, s: State)
    requires Reachable(c, s) && !s.crashed && s.pc.Receiving?
    ensures Next(c, s, Receive).Some? <==> s.results != [] || s.received == c.peers
    ensures s.received == c.peers ==> s.results == [] && Next(c, s, Receive).value.pc == Returned(None)
    ensures s.results != [] ==>
              var first, t := s.results[0], Next(c, s, Receive).value;
              && s.results == [first] + t.results && t.phases == s.phases
              && (first.Some? ==> t.pc == Returned(first) && t.won)
              && (first.None? ==> t.pc == Receiving && t.received == s.received + 1)
  {
    hide Reachable, Count, ResultOf;
    ReachableKeeps(c, s);
    CountBounds(s.phases, HasSent);
  }

  /** The info that is returned is the published one, whichever peer wins, provided that nothing that was
      assembled in this run is a hash collision. */
  lemma {:induction false} WinnerIsPublished(c: Config, s: State, original: seq<byte>)
    requires c.sha1(original) == c.infoHash
    requires forall g :: g in s.tried && s.tried[g].Some? ==>
               Metadata.NoCollision(s.tried[g].value, c.limit, c.sha1, original)
    requires Reachable(c, s) && s.pc.Returned? && s.pc.info.Some?
    ensures Metainfo.ParseRaw(original) == Ok(s.pc.info.value)
  {
    hide Reachable, Metadata.Outcome, Metainfo.ParseRaw, Metadata.NoCollision;
    ReachableKeeps(c, s);
    assert Fetched(c, s.tried, s.pc.info);
    var g :| g in s.tried && s.tried[g].Some?
             && Metadata.Outcome(s.tried[g].value, c.limit, c.sha1, c.infoHash) == Ok(s.pc.info.value);
    Metadata.OnlyPublishedInfoIsReturned(s.tried[g].value, c.limit, c.sha1, original);
  }
}
