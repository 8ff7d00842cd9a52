/** Who owns a piece buffer: any number of concurrent downloads sharing the pool, each step of each
    download interleaved with the steps of the others. */
module BufferOwnership {
  import opened Prelude

  type Call = nat

  /** `inUse` says which buffer a running download writes; `delivered` are the buffers whose data went to
      the caller of a successful download; `memory` holds the bytes of every buffer there is. */
  datatype State<B(==)> = State(free: set<B>, inUse: map<Call, B>, delivered: set<B>, memory: map<B, seq<byte>>)

  datatype Step<B(==)> =
    | TakePooled(call: Call, buffer: B)
    | TakeNew(call: Call, buffer: B, length: nat)
    | PoolLoses(lost: set<B>)
    | Copy(call: Call, begin: nat, block: seq<byte>)
    | Fail(call: Call)
    | Succeed(call: Call)

  function Next<B>(s: State<B>, step: Step<B>): Option<State<B>> {
    match step
    case TakePooled(call, b) =>
      if call in s.inUse || b !in s.free then None
      else Some(s.(free := s.free - {b}, inUse := s.inUse[call := b]))
    case TakeNew(call, b, length) =>
      if call in s.inUse || b in s.memory then None
      else Some(s.(inUse := s.inUse[call := b], memory := s.memory[b := seq(length, _ => 0)]))
    case PoolLoses(lost) => Some(s.(free := s.free - lost))
    case Copy(call, begin, block) =>
      if call !in s.inUse || s.inUse[call] !in s.memory || begin > |s.memory[s.inUse[call]]| then None
      else Some(s.(memory := s.memory[s.inUse[call] := CopyInto(s.memory[s.inUse[call]], begin, block)]))
    case Fail(call) =>
      if call !in s.inUse then None
      else Some(s.(free := s.free + {s.inUse[call]}, inUse := s.inUse - {call}))
    case Succeed(call) =>
      if call !in s.inUse then None
      else Some(s.(delivered := s.delivered + {s.inUse[call]}, inUse := s.inUse - {call}))
  }

  function Exec<B>(s: State<B>, steps: seq<Step<B>>): Option<State<B>>
    decreases |steps|
  {
    if steps == [] then Some(s)
    else match Next(s, steps[0])
      case None => None
      case Some(t) => Exec(t, steps[1..])
  }

  function Init<B>(): State<B> { State({}, map[], {}, map[]) }

  /** A buffer is in the pool, or in use by one download, or delivered, and never two of these. */
  ghost predicate Inv<B>(s: State<B>) {
    && s.free <= s.memory.Keys && s.delivered <= s.memory.Keys
    && (forall c :: c in s.inUse ==> s.inUse[c] in s.memory && s.inUse[c] !in s.free && s.inUse[c] !in s.delivered)
    && (forall c, d :: c in s.inUse && d in s.inUse && c != d ==> s.inUse[c] != s.inUse[d])
    && s.free !! s.delivered
  }

  lemma {:induction false} TakeKeeps<B>(s: State<B>, step: Step<B>)
    requires Inv(s) && Next(s, step).Some? && (step.TakePooled? || step.TakeNew? || step.PoolLoses?)
    ensures Inv(Next(s, step).value)
  {
  }

  lemma {:induction false} EndKeeps<B>(s: State<B>, step: Step<B>)
    requires Inv(s) && Next(s, step).Some? && (step.Fail? || step.Succeed?)
    ensures Inv(Next(s, step).value)
  {
  }

  lemma {:induction false} CopyKeeps<B>(s: State<B>, step: Step<B>)
    requires Inv(s) && Next(s, step).Some? && step.Copy?
    ensures Inv(Next(s, step).value)
  {
    hide CopyInto;
  }

  lemma {:induction false} InvStep<B>(s: State<B>, step: Step<B>)
    requires Inv(s) && Next(s, step).Some?
    ensures Inv(Next(s, step).value)
  {
    hide Inv, Next;
    match step
    case TakePooled(_, _) => TakeKeeps(s, step);
    case TakeNew(_, _, _) => TakeKeeps(s, step);
    case PoolLoses(_) => TakeKeeps(s, step);
    case Copy(_, _, _) => CopyKeeps(s, step);
    case Fail(_) => EndKeeps(s, step);
    case Succeed(_) => EndKeeps(s, step);
  }

  /** No step touches the bytes of a delivered buffer, or takes its delivery back. */
  lemma {:induction false} StepSparesDelivered<B>(s: State<B>, step: Step<B>)
    requires Inv(s) && Next(s, step).Some?
    ensures forall b :: b in s.delivered ==>
              && b in Next(s, step).value.delivered && b in Next(s, step).value.memory
              && Next(s, step).value.memory[b] == s.memory[b]
  {
    hide CopyInto;
  }

  lemma {:induction false} RunKeeps<B>(s: State<B>, steps: seq<Step<B>>)
    requires Inv(s) && Exec(s, steps).Some?
    ensures Inv(Exec(s, steps).value)
    ensures forall b :: b in s.delivered ==>
              b in Exec(s, steps).value.delivered && Exec(s, steps).value.memory[b] == s.memory[b]
    decreases |steps|
  {
    if steps != [] {
      InvStep(s, steps[0]);
      StepSparesDelivered(s, steps[0]);
      RunKeeps(Next(s, steps[0]).value, steps[1..]);
    }
  }

  /** In any run, from the moment a buffer is delivered it stays out of the pool, out of every other
      download's hands, and unchanged; and at every moment a buffer in use belongs to one download,
      and is neither pooled nor delivered. */
  lemma {:induction false} DeliveredIsForever<B>(before: seq<Step<B>>, after: seq<Step<B>>)
    requires Exec(Init(), before).Some? && Exec(Exec(Init(), before).value, after).Some?
    ensures var s, t := Exec(Init(), before).value, Exec(Exec(Init(), before).value, after).value;
            && (forall b :: b in s.delivered ==>
                  && b in t.delivered && b !in t.free && (forall c :: c in t.inUse ==> t.inUse[c] != b)
                  && b in s.memory && b in t.memory && t.memory[b] == s.memory[b])
            && (forall c :: c in s.inUse ==> s.inUse[c] !in s.free && s.inUse[c] !in s.delivered)
            && (forall c, d :: c in s.inUse && d in s.inUse && c != d ==> s.inUse[c] != s.inUse[d])
  {
    hide Next, Exec;
    assert Inv(Init<B>());
    RunKeeps(Init<B>(), before);
    RunKeeps(Exec(Init<B>(), before).value, after);
  }

  // ---- One call ----

  /** The state after one call that used `buffer`, left `bytes` in it, and ended with the pool `free`. */
  function AfterCall<B>(s: State<B>, free: set<B>, buffer: B, bytes: seq<byte>, failed: bool): State<B> {
    State(free, s.inUse, if failed then s.delivered else s.delivered + {buffer}, s.memory[buffer := bytes])
  }

  /** Taking the buffer, with what the pool lost on the way. */
  lemma TakeRuns<B>(s: State<B>, call: Call, buffer: B, free: set<B>, length: nat)
      returns (lose: Step<B>, take: Step<B>, held: seq<byte>)
    requires Inv(s) && call !in s.inUse
    requires if buffer in s.free then |s.memory[buffer]| == length else buffer !in s.memory
    requires free - {buffer} <= s.free - {buffer}
    ensures Next(s, lose).Some? && |held| == length
    ensures Next(Next(s, lose).value, take)
         == Some(State(free - {buffer}, s.inUse[call := buffer], s.delivered, s.memory[buffer := held]))
  {
    lose := PoolLoses(s.free - free - {buffer});
    if buffer in s.free {
      take, held := TakePooled(call, buffer), s.memory[buffer];
      assert s.free - (s.free - free - {buffer}) - {buffer} == free - {buffer};
      assert s.memory[buffer := held] == s.memory;
    } else {
      take, held := TakeNew(call, buffer, length), seq(length, _ => 0);
      assert s.free - (s.free - free - {buffer}) == free - {buffer};
    }
  }

  /** Filling it, and giving it back or handing it out. */
  lemma FillRuns<B>(s: State<B>, call: Call, buffer: B, held: seq<byte>, bytes: seq<byte>, end: Step<B>)
    requires call in s.inUse && s.inUse[call] == buffer && buffer in s.memory && s.memory[buffer] == held
    requires |held| == |bytes| && end in {Fail(call), Succeed(call)}
    ensures Next(s, Copy(call, 0, bytes)) == Some(s.(memory := s.memory[buffer := bytes]))
    ensures Next(s.(memory := s.memory[buffer := bytes]), end)
         == Some(State(if end.Fail? then s.free + {buffer} else s.free, s.inUse - {call},
                       if end.Fail? then s.delivered else s.delivered + {buffer}, s.memory[buffer := bytes]))
  {
    assert CopyInto(held, 0, bytes) == bytes;
  }

  /** A call that takes a pooled or a new buffer, fills it, and gives it back or hands it out is a run of
      these steps. */
  lemma {:induction false} CallIsARun<B>(s: State<B>, call: Call, buffer: B, free: set<B>, bytes: seq<byte>, failed: bool)
      returns (steps: seq<Step<B>>)
    requires Inv(s) && call !in s.inUse
    requires if buffer in s.free then |s.memory[buffer]| == |bytes| else buffer !in s.memory
    requires free <= (if failed then s.free + {buffer} else s.free) && (failed <==> buffer in free)
    ensures Exec(s, steps) == Some(AfterCall(s, free, buffer, bytes, failed))
  {
    hide Next, Inv, Exec;
    var lose, take, held := TakeRuns(s, call, buffer, free, |bytes|);
    var copy := Copy(call, 0, bytes);
    var end := if failed then Fail(call) else Succeed(call);
    var taken := Next(Next(s, lose).value, take).value;
    FillRuns(taken, call, buffer, held, bytes, end);
    steps := [lose, take, copy, end];
    FourSteps(s, lose, take, copy, end);
    assert taken.memory[buffer := bytes] == s.memory[buffer := bytes];
    assert taken.inUse - {call} == s.inUse;
    assert (if failed then free - {buffer} + {buffer} else free - {buffer}) == free;
  }

  lemma FourSteps<B>(s: State<B>, a: Step<B>, b: Step<B>, c: Step<B>, d: Step<B>)
    requires Next(s, a).Some? && Next(Next(s, a).value, b).Some? && Next(Next(Next(s, a).value, b).value, c).Some?
    ensures Exec(s, [a, b, c, d]) == Next(Next(Next(Next(s, a).value, b).value, c).value, d)
  {
    hide Next, Exec;
    Prepended(s, a, [b, c, d]);
    Prepended(Next(s, a).value, b, [c, d]);
    Prepended(Next(Next(s, a).value, b).value, c, [d]);
    assert [a] + [b, c, d] == [a, b, c, d] && [b] + [c, d] == [b, c, d] && [c] + [d] == [c, d];
    OneStep(Next(Next(Next(s, a).value, b).value, c).value, d);
  }

  lemma Prepended<B>(s: State<B>, step: Step<B>, rest: seq<Step<B>>)
    requires Next(s, step).Some?
    ensures Exec(s, [step] + rest) == Exec(Next(s, step).value, rest)
  {
    hide Next;
    assert ([step] + rest)[1..] == rest;
  }

  lemma OneStep<B>(s: State<B>, step: Step<B>)
    ensures Exec(s, [step]) == Next(s, step)
  {
    hide Next;
  }
}
