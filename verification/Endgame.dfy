/** The endgame tracker: the pieces that all workers race for. */
module Endgame {
  import opened Prelude

  datatype PieceWork = PieceWork(index: nat, hash: seq<byte>, length: int)

  /** Endgame starts when this many pieces or fewer remain. */
  const ENDGAME_THRESHOLD := 20

  datatype Tracker = Tracker(pieces: seq<PieceWork>, completed: set<nat>, offset: nat, active: bool)

  const EMPTY := Tracker([], {}, 0, false)

  function Added(t: Tracker, pw: PieceWork): Tracker {
    if pw.index in t.completed then t else t.(pieces := t.pieces + [pw])
  }

  /** The position that comes `j`-th in a turn that begins at `start`. */
  function Slot(start: nat, j: nat, n: nat): (k: nat)
    requires n > 0
    ensures k < n
  {
    (start + j) % n
  }

  function InTurn(pieces: seq<PieceWork>, start: nat, j: nat): PieceWork
    requires pieces != []
  {
    pieces[Slot(start, j, |pieces|)]
  }

  /** The first piece from position `i` of the turn on that the peer has. */
  function FirstFrom(pieces: seq<PieceWork>, start: nat, has: nat -> bool, i: nat): Option<PieceWork>
    requires i <= |pieces|
    decreases |pieces| - i
  {
    if i == |pieces| then None
    else
      var pw := InTurn(pieces, start, i);
      if has(pw.index) then Some(pw) else FirstFrom(pieces, start, has, i + 1)
  }

  function Picked(t: Tracker, has: nat -> bool): (Tracker, Option<PieceWork>) {
    if t.pieces == [] then (t, None)
    else
      var offset := t.offset + 1;
      (t.(offset := offset), FirstFrom(t.pieces, offset % |t.pieces|, has, 0))
  }

  /** Where the first piece with this index is. */
  function Position(pieces: seq<PieceWork>, index: nat): (r: Option<nat>)
    ensures r.Some? ==> r.value < |pieces| && pieces[r.value].index == index
    ensures r.None? ==> forall k :: 0 <= k < |pieces| ==> pieces[k].index != index
  {
    if pieces == [] then None
    else if pieces[0].index == index then Some(0)
    else match Position(pieces[1..], index)
      case None => assert forall k :: 1 <= k < |pieces| ==> pieces[k] == pieces[1..][k - 1]; None
      case Some(k) => Some(k + 1)
  }

  /** Removal by moving the last piece into the gap. */
  function SwapRemove(pieces: seq<PieceWork>, k: nat): seq<PieceWork>
    requires k < |pieces|
  {
    pieces[k := pieces[|pieces| - 1]][..|pieces| - 1]
  }

  function Completed(t: Tracker, index: nat): (Tracker, bool) {
    if index in t.completed then (t, false)
    else
      var pieces := match Position(t.pieces, index)
                    case None => t.pieces
                    case Some(k) => SwapRemove(t.pieces, k);
      (t.(pieces := pieces, completed := t.completed + {index}), true)
  }

  class EndgameTracker {
    var active: bool
    var pieces: seq<PieceWork>
    var completed: set<nat>
    var offset: nat

    function State(): Tracker
      reads this
    {
      Tracker(pieces, completed, offset, active)
    }

    constructor ()
      ensures State() == EMPTY
    {
      active, pieces, completed, offset := false, [], {}, 0;
    }

    method Activate()
      modifies this
      ensures State() == old(State()).(active := true)
    {
      active := true;
    }

    method IsActive() returns (r: bool)
      ensures r == State().active
    {
      r := active;
    }

    method AddPiece(pw: PieceWork)
      modifies this`pieces
      ensures pieces == if pw.index in completed then old(pieces) else old(pieces) + [pw]
      ensures State() == Added(old(State()), pw)
    {
      if pw.index !in completed { pieces := pieces + [pw]; }
    }

    method PickPiece(has: nat -> bool) returns (r: Option<PieceWork>)
      modifies this`offset
      ensures (State(), r) == Picked(old(State()), has)
      ensures offset == old(offset) + if pieces == [] then 0 else 1
      ensures r == None <==> forall k :: 0 <= k < |pieces| ==> !has(pieces[k].index)
      ensures r.Some? ==> exists j :: 0 <= j < |pieces| && r.value == InTurn(pieces, offset, j) && has(r.value.index)
                                      && forall i :: 0 <= i < j ==> !has(InTurn(pieces, offset, i).index)
    {
      PickIsComplete(State(), has);
      PickIsFirst(State(), has);
      hide InTurn;
      var n := |pieces|;
      if n == 0 { return None; }
      offset := offset + 1;
      var start := offset % n;
      for i := 0 to n
        invariant FirstFrom(pieces, start, has, 0) == FirstFrom(pieces, start, has, i)
      {
        var pw := pieces[(start + i) % n];
        assert pw == InTurn(pieces, start, i) by { TurnMeans(pieces, start, i); }
        if has(pw.index) { return Some(pw); }
      }
      r := None;
    }

    method Complete(index: nat) returns (first: bool)
      modifies this`pieces, this`completed
      ensures (State(), first) == Completed(old(State()), index)
      ensures first <==> index !in old(completed)
      ensures completed == old(completed) + {index}
    {
      if index in completed { return false; }
      completed := completed + {index};
      for i := 0 to |pieces|
        invariant pieces == old(pieces)
        invariant Position(pieces, index) == match Position(pieces[i..], index) case None => None case Some(k) => Some(i + k)
      {
        if pieces[i].index == index {
          pieces := pieces[i := pieces[|pieces| - 1]];
          pieces := pieces[..|pieces| - 1];
          return true;
        }
        assert pieces[i..][1..] == pieces[i + 1..];
      }
      first := true;
    }

    method Remaining() returns (n: nat)
      ensures n == |State().pieces|
    {
      n := |pieces|;
    }
  }

  // ---- Picking ----

  lemma {:induction false} FirstFromFinds(pieces: seq<PieceWork>, start: nat, has: nat -> bool, i: nat)
    requires i <= |pieces|
    ensures var r := FirstFrom(pieces, start, has, i);
            && (r.None? ==> forall j :: i <= j < |pieces| ==> !has(InTurn(pieces, start, j).index))
            && (r.Some? ==> exists j :: i <= j < |pieces| && r.value == InTurn(pieces, start, j) && has(r.value.index)
                                       && forall m :: i <= m < j ==> !has(InTurn(pieces, start, m).index))
    decreases |pieces| - i
  {
    if i < |pieces| {
      if has(InTurn(pieces, start, i).index) {
        assert FirstFrom(pieces, start, has, i).value == InTurn(pieces, start, i);
      } else {
        FirstFromFinds(pieces, start, has, i + 1);
      }
    }
  }

  lemma {:induction false} SlotShifts(start: nat, n: nat, m: nat)
    requires m < n
    ensures Slot(start, m, n) == if start % n + m < n then start % n + m else start % n + m - n
  {
    var q, s := start / n, start % n;
    assert start == q * n + s;
    if s + m < n {
      DivModUnique(q, n, s + m);
    } else {
      assert start + m == (q + 1) * n + (s + m - n);
      DivModUnique(q + 1, n, s + m - n);
    }
  }

  /** A turn passes every position exactly once. */
  lemma {:induction false} TurnPasses(start: nat, n: nat, k: nat) returns (j: nat)
    requires k < n
    ensures j < n && Slot(start, j, n) == k
    ensures forall m :: 0 <= m < n && Slot(start, m, n) == k ==> m == j
  {
    hide Slot;
    var s := start % n;
    j := if k >= s then k - s else k + n - s;
    SlotShifts(start, n, j);
    forall m | 0 <= m < n && Slot(start, m, n) == k ensures m == j {
      SlotShifts(start, n, m);
    }
  }

  /** Reducing the start to the number of positions does not change the turn. */
  lemma {:induction false} SlotReduces(start: nat, n: nat, m: nat)
    requires m < n
    ensures Slot(start % n, m, n) == Slot(start, m, n)
  {
    hide Slot;
    var s := start % n;
    assert s % n == s by { DivModUnique(0, n, s); }
    SlotShifts(start, n, m);
    SlotShifts(s, n, m);
  }

  /** PickPiece gives nothing exactly when the peer has none of the held pieces, and otherwise the
      first held piece of the turn that it has; only the turn moves on. */
  lemma {:induction false} PickIsComplete(t: Tracker, has: nat -> bool)
    ensures var (after, r) := Picked(t, has);
            && (r.None? <==> forall k :: 0 <= k < |t.pieces| ==> !has(t.pieces[k].index))
            && (r.Some? ==> r.value in t.pieces && has(r.value.index))
            && after == t.(offset := after.offset)
  {
    hide Slot;
    var n := |t.pieces|;
    if n > 0 {
      var start := (t.offset + 1) % n;
      FirstFromFinds(t.pieces, start, has, 0);
      if Picked(t, has).1.None? {
        forall k | 0 <= k < n ensures !has(t.pieces[k].index) {
          var j := TurnPasses(start, n, k);
          assert !has(InTurn(t.pieces, start, j).index);
        }
      } else {
        var j :| 0 <= j < n && Picked(t, has).1.value == InTurn(t.pieces, start, j);
        assert t.pieces[Slot(start, j, n)] in t.pieces;
      }
    }
  }

  lemma TurnMeans(pieces: seq<PieceWork>, start: nat, j: nat)
    requires pieces != []
    ensures InTurn(pieces, start, j) == pieces[(start + j) % |pieces|]
  {
  }

  lemma {:induction false} FirstFromReduces(pieces: seq<PieceWork>, start: nat, has: nat -> bool, i: nat)
    requires i <= |pieces| && pieces != []
    ensures FirstFrom(pieces, start % |pieces|, has, i) == FirstFrom(pieces, start, has, i)
    decreases |pieces| - i
  {
    hide Slot;
    if i < |pieces| {
      SlotReduces(start, |pieces|, i);
      FirstFromReduces(pieces, start, has, i + 1);
    }
  }

  /** What is picked is the first that the peer has in the turn that begins at the new offset. */
  lemma {:induction false} PickIsFirst(t: Tracker, has: nat -> bool)
    ensures var (after, r) := Picked(t, has);
            r.Some? ==> exists j :: 0 <= j < |t.pieces| && r.value == InTurn(t.pieces, after.offset, j) && has(r.value.index)
                                    && forall i :: 0 <= i < j ==> !has(InTurn(t.pieces, after.offset, i).index)
  {
    hide FirstFrom, InTurn;
    if t.pieces != [] {
      FirstFromReduces(t.pieces, t.offset + 1, has, 0);
      FirstFromFinds(t.pieces, t.offset + 1, has, 0);
    }
  }

  /** The pieces that `count` picks in a row give to peers that have everything. */
  function Picks(t: Tracker, count: nat): seq<Option<PieceWork>>
    decreases count
  {
    if count == 0 then []
    else var (after, r) := Picked(t, _ => true); [r] + Picks(after, count - 1)
  }

  lemma {:induction false} PicksInTurn(t: Tracker, count: nat, m: nat)
    requires t.pieces != [] && m < count <= |t.pieces|
    ensures |Picks(t, count)| == count
    ensures Picks(t, count)[m] == Some(InTurn(t.pieces, t.offset + 1, m))
    decreases count
  {
    hide Slot;
    var n := |t.pieces|;
    var (after, r) := Picked(t, _ => true);
    assert r == Some(InTurn(t.pieces, (t.offset + 1) % n, 0));
    SlotReduces(t.offset + 1, n, 0);
    if m > 0 {
      PicksInTurn(after, count - 1, m - 1);
      SlotAdvances(t.offset + 1, n, m);
    } else if count > 1 {
      PicksInTurn(after, count - 1, 0);
    }
  }

  lemma SlotAdvances(start: nat, n: nat, m: nat)
    requires 0 < m < n
    ensures Slot(start + 1, m - 1, n) == Slot(start, m, n)
  {
  }

  /** Of as many picks in a row as there are pieces, whatever the offset, each piece is picked
      exactly once: the workers spread evenly. */
  lemma {:induction false} PicksAreFair(t: Tracker, k: nat) returns (j: nat)
    requires k < |t.pieces| && Distinct(t.pieces)
    ensures j < |t.pieces| == |Picks(t, |t.pieces|)|
    ensures Picks(t, |t.pieces|)[j] == Some(t.pieces[k])
    ensures forall m :: 0 <= m < |t.pieces| && Picks(t, |t.pieces|)[m] == Some(t.pieces[k]) ==> m == j
  {
    hide Slot, Picks;
    var n := |t.pieces|;
    j := TurnPasses(t.offset + 1, n, k);
    PicksInTurn(t, n, j);
    forall m | 0 <= m < n && Picks(t, n)[m] == Some(t.pieces[k]) ensures m == j {
      PicksInTurn(t, n, m);
      var other := Slot(t.offset + 1, m, n);
      assert t.pieces[other].index == t.pieces[k].index;
      assert other == k;
    }
  }

  // ---- Completing ----

  ghost predicate Distinct(pieces: seq<PieceWork>) {
    forall i, j :: 0 <= i < j < |pieces| ==> pieces[i].index != pieces[j].index
  }

  ghost function IndexSet(pieces: seq<PieceWork>): set<nat> { set k | 0 <= k < |pieces| :: pieces[k].index }

  lemma {:induction false} DistinctCount(pieces: seq<PieceWork>)
    requires Distinct(pieces)
    ensures |IndexSet(pieces)| == |pieces|
  {
    if pieces == [] {
      assert IndexSet(pieces) == {};
    } else {
      var front, last := pieces[..|pieces| - 1], pieces[|pieces| - 1];
      DistinctCount(front);
      assert pieces == front + [last];
      assert IndexSet(pieces) == IndexSet(front) + {last.index};
    }
  }

  /** The last piece has taken the place of the removed one, if one was removed. */
  ghost predicate Swapped(before: seq<PieceWork>, after: seq<PieceWork>, removed: Option<nat>) {
    if removed.None? then after == before
    else
      && |after| == |before| - 1 && removed.value < |before|
      && forall k :: 0 <= k < |after| ==> after[k] == before[if k == removed.value then |after| else k]
  }

  /** The first completion removes the piece with this index by moving the last one into its place. */
  lemma CompletingSwaps(t: Tracker, index: nat)
    ensures var (after, first) := Completed(t, index);
            && (first <==> index !in t.completed)
            && after.completed == t.completed + {index}
            && Swapped(t.pieces, after.pieces, if first then Position(t.pieces, index) else None)
  {
  }

  /** Completing a piece removes exactly that piece, although the last piece changes its place. */
  lemma {:induction false} CompleteRemoves(t: Tracker, index: nat)
    requires Distinct(t.pieces) && index !in t.completed
    ensures var (after, first) := Completed(t, index);
            && first && after.completed == t.completed + {index}
            && after.active == t.active && after.offset == t.offset
            && Distinct(after.pieces) && IndexSet(after.pieces) == IndexSet(t.pieces) - {index}
            && (forall pw :: pw in after.pieces ==> pw in t.pieces)
  {
    var k := Position(t.pieces, index);
    if k.Some? {
      SwapRemoveRemoves(t.pieces, k.value);
    } else {
      assert index !in IndexSet(t.pieces);
    }
  }

  lemma {:induction false} SwapRemoveRemoves(pieces: seq<PieceWork>, k: nat)
    requires Distinct(pieces) && k < |pieces|
    ensures Distinct(SwapRemove(pieces, k))
    ensures IndexSet(SwapRemove(pieces, k)) == IndexSet(pieces) - {pieces[k].index}
    ensures forall pw :: pw in SwapRemove(pieces, k) ==> pw in pieces
  {
    var r := SwapRemove(pieces, k);
    var last := |pieces| - 1;
    forall x | x in IndexSet(pieces) - {pieces[k].index} ensures x in IndexSet(r) {
      var m :| 0 <= m < |pieces| && pieces[m].index == x;
      if m == last { assert r[k].index == x; } else { assert r[m].index == x; }
    }
    forall x | x in IndexSet(r) ensures x in IndexSet(pieces) - {pieces[k].index} {
      var m :| 0 <= m < |r| && r[m].index == x;
      var from := if m == k then last else m;
      assert pieces[from].index == x;
    }
  }
}
