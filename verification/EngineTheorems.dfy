/** What holds of every run of the download, whatever the interleaving. */
module EngineTheorems {
  import opened Prelude
  import opened Metainfo
  import opened Storage
  import opened PieceWriter
  import opened Endgame
  import opened PieceDownload
  import opened Engine
  import opened EngineInvariants

  // ---- Success means the published content ----

  ghost predicate Fitting(c: Config, log: seq<PieceResult>) {
    forall k :: 0 <= k < |log| ==> ValidResult(c, log[k])
  }

  /** The disk after the logged writes. */
  ghost function DiskAfter(c: Config, disk: Disk, files: seq<FileEntry>, log: seq<PieceResult>): Disk
    requires Layout(c.info, files) && Fitting(c, log)
  {
    if log == [] then disk
    else
      var r := log[|log| - 1];
      assert ValidResult(c, r);
      WritePieceOn(DiskAfter(c, disk, files, log[..|log| - 1]), files, c.info, r.index, r.data)
  }

  /** The torrent was made from this content: each piece of it has the published hash. */
  ghost predicate Published(c: Config, content: seq<byte>)
    requires Consistent(c.info) && |content| == Total(c.info)
  {
    forall i: nat :: i < Count(c) ==> c.sha1(PieceSlice(c.info, content, i)) == c.info.pieces[i]
  }

  /** None of these results is a hash collision: data that differs from the published piece, with the same
      length and the same hash. */
  ghost predicate NoCollisions(c: Config, content: seq<byte>, results: seq<PieceResult>)
    requires Consistent(c.info) && |content| == Total(c.info)
  {
    forall k :: 0 <= k < |results| && results[k].index < Count(c) ==> NoCollision(c, content, results[k])
  }

  ghost predicate NoCollision(c: Config, content: seq<byte>, r: PieceResult)
    requires Consistent(c.info) && |content| == Total(c.info) && r.index < Count(c)
  {
    var piece := PieceSlice(c.info, content, r.index);
    |r.data| == |piece| && c.sha1(r.data) == c.sha1(piece) ==> r.data == piece
  }

  lemma VerifiedIsPublished(c: Config, content: seq<byte>, r: PieceResult)
    requires Consistent(c.info) && |content| == Total(c.info) && Published(c, content)
    requires ValidResult(c, r) && NoCollision(c, content, r)
    ensures r.data == PieceSlice(c.info, content, r.index)
  {
    hide PieceSlice, Consistent, PieceSize;
    assert c.sha1(PieceSlice(c.info, content, r.index)) == c.info.pieces[r.index];
  }

  ghost function Order(log: seq<PieceResult>): (o: seq<nat>)
    ensures |o| == |log| && forall k :: 0 <= k < |log| ==> o[k] == log[k].index
  {
    if log == [] then [] else Order(log[..|log| - 1]) + [log[|log| - 1].index]
  }

  lemma {:induction false} LogIsAnOrder(c: Config, disk: Disk, files: seq<FileEntry>, content: seq<byte>, log: seq<PieceResult>)
    requires Layout(c.info, files) && |content| == Total(c.info) && Published(c, content)
    requires Fitting(c, log) && NoCollisions(c, content, log)
    ensures ArePieces(Order(log), c.info)
    ensures DiskAfter(c, disk, files, log) == WriteInOrder(disk, files, c.info, content, Order(log))
  {
    hide WritePieceOn, ValidResult, Published, NoCollision;
    assert ArePieces(Order(log), c.info) by { FittingOrder(c, log); }
    if log != [] {
      var front, last := log[..|log| - 1], log[|log| - 1];
      LogIsAnOrder(c, disk, files, content, front);
      assert Order(log)[..|log| - 1] == Order(front);
      assert ValidResult(c, last);
      ValidIndex(c, last);
      VerifiedIsPublished(c, content, last);
    }
  }

  lemma ValidIndex(c: Config, r: PieceResult)
    requires ValidResult(c, r)
    ensures r.index < Count(c) && |r.data| == PieceSize(c.info, r.index)
  {
  }

  lemma FittingOrder(c: Config, log: seq<PieceResult>)
    requires Fitting(c, log)
    ensures ArePieces(Order(log), c.info)
  {
    hide Order;
    forall k | 0 <= k < |log| ensures Order(log)[k] < Count(c) { assert ValidResult(c, log[k]); }
  }

  lemma OrderIndices(log: seq<PieceResult>)
    ensures PieceWriter.Indices(Order(log)) == LogSet(log)
  {
    hide Order;
    forall i | i in LogSet(log) ensures i in Order(log) {
      var k :| 0 <= k < |log| && log[k].index == i;
      assert Order(log)[k] == i;
    }
    forall i | i in Order(log) ensures i in LogSet(log) {
      var k :| 0 <= k < |log| && Order(log)[k] == i;
      assert log[k].index == i;
    }
  }

  lemma {:induction false} LogIsInPlace(c: Config, disk: Disk, files: seq<FileEntry>, content: seq<byte>, log: seq<PieceResult>)
    requires Layout(c.info, files) && |content| == Total(c.info) && Published(c, content)
    requires Fitting(c, log) && NoCollisions(c, content, log)
    requires forall k :: 0 <= k < |files| ==> files[k].path !in disk
    ensures Holds(DiskAfter(c, disk, files, log), files, c.info, content, LogSet(log))
  {
    hide Holds, DiskAfter, Published, NoCollisions, Fitting, Order, Layout;
    LogIsAnOrder(c, disk, files, content, log);
    OrderHolds(disk, files, c.info, content, Order(log));
    OrderIndices(log);
  }

  /** The results that were handed to the writer. */
  function Handed(b: Books): seq<PieceResult> {
    match InFlight(b.pc) case None => b.log case Some(r) => b.log + [r]
  }

  /** What the disk may hold: the logged writes, and of the piece that is being written, or whose write
      failed, any number of its first bytes. */
  ghost predicate OnDisk(c: Config, initial: Disk, files: seq<FileEntry>, b: Books, disk: Disk) {
    && Layout(c.info, files) && Fitting(c, b.log)
    && match InFlight(b.pc)
       case None => disk == DiskAfter(c, initial, files, b.log)
       case Some(r) => ReachedDisk(c, DiskAfter(c, initial, files, b.log), disk, files, r)
  }

  ghost predicate ReachedDisk(c: Config, before: Disk, disk: Disk, files: seq<FileEntry>, r: PieceResult) {
    exists m: nat :: m <= |r.data| && Torn(before, disk, files, PieceStart(c.info, r.index), r.data, m)
  }

  /** At every moment of every run, also while a write is in progress and after one has failed, the bytes of
      every written piece are in place in the files. */
  lemma {:induction false} WrittenPiecesAreInPlace(c: Config, initial: Disk, files: seq<FileEntry>, content: seq<byte>,
                                                   s: State, disk: Disk)
    requires Layout(c.info, files) && |content| == Total(c.info) && Published(c, content)
    requires forall k :: 0 <= k < |files| ==> files[k].path !in initial
    requires Reachable(c, s) && NoCollisions(c, content, Handed(s.books))
    requires OnDisk(c, initial, files, s.books, disk)
    ensures Holds(disk, files, c.info, content, LogSet(s.books.log))
  {
    hide Reachable, Holds, Published, NoCollisions, OnDisk, BooksKept, Layout;
    ReachableKeeps(c, s);
    BooksInPlace(c, initial, files, content, s.books, disk);
  }

  lemma {:induction false} BooksInPlace(c: Config, initial: Disk, files: seq<FileEntry>, content: seq<byte>,
                                        b: Books, disk: Disk)
    requires Layout(c.info, files) && |content| == Total(c.info) && Published(c, content)
    requires forall k :: 0 <= k < |files| ==> files[k].path !in initial
    requires BooksKept(c, b) && NoCollisions(c, content, Handed(b)) && OnDisk(c, initial, files, b, disk)
    ensures Holds(disk, files, c.info, content, LogSet(b.log))
  {
    hide Holds, DiskAfter, Published, NoCollision, Torn, ValidResult, Layout, LogSet, TrackerExact, SizeOf, Once;
    var handed := Handed(b);
    assert forall k :: 0 <= k < |b.log| ==> b.log[k] == handed[k];
    LogIsInPlace(c, initial, files, content, b.log);
    LayoutIsConsistent(c.info, files);
    match InFlight(b.pc)
    case None =>
    case Some(r) =>
      ValidIndex(c, r);
      assert handed[|b.log|] == r;
      VerifiedIsPublished(c, content, r);
      var before := DiskAfter(c, initial, files, b.log);
      var m: nat :| m <= |r.data| && Torn(before, disk, files, PieceStart(c.info, r.index), r.data, m);
      TornHolds(before, disk, files, c.info, content, LogSet(b.log), r.index, m);
  }

  /** Whenever the download returns without an error, every piece was written exactly once, with data
      that matches its hash, and the files hold the published content. */
  lemma {:induction false} SuccessIsComplete(c: Config, disk: Disk, files: seq<FileEntry>, content: seq<byte>, s: State)
    requires Layout(c.info, files) && |content| == Total(c.info) && Published(c, content)
    requires forall k :: 0 <= k < |files| ==> files[k].path !in disk
    requires Reachable(c, s) && s.books.pc == Returned(Success) && NoCollisions(c, content, s.books.log)
    ensures |s.books.log| == Count(c)
    ensures forall i: nat :: i < Count(c) ==> WrittenOnce(c, s.books.log, i)
    ensures Fitting(c, s.books.log) && Complete(DiskAfter(c, disk, files, s.books.log), files, content)
    ensures s.books.bytes == Total(c.info)
  {
    hide Reachable, BooksKept;
    ReachableKeeps(c, s);
    BooksOfSuccess(c, disk, files, content, s.books);
  }

  lemma {:induction false} BooksOfSuccess(c: Config, disk: Disk, files: seq<FileEntry>, content: seq<byte>, b: Books)
    requires Layout(c.info, files) && |content| == Total(c.info) && Published(c, content)
    requires forall k :: 0 <= k < |files| ==> files[k].path !in disk
    requires BooksKept(c, b) && b.pc == Returned(Success) && NoCollisions(c, content, b.log)
    ensures |b.log| == Count(c)
    ensures forall i: nat :: i < Count(c) ==> WrittenOnce(c, b.log, i)
    ensures Fitting(c, b.log) && Complete(DiskAfter(c, disk, files, b.log), files, content)
    ensures b.bytes == Total(c.info)
  {
    hide Holds, DiskAfter, Published, NoCollisions, SizeOf, ValidResult, Complete, Layout, LogSet, WrittenOnce;
    SuccessWritesAll(c, b);
    LogIsInPlace(c, disk, files, content, b.log);
    HoldingAllIsComplete(DiskAfter(c, disk, files, b.log), files, c.info, content, LogSet(b.log));
    SizeOfAll(c.info, LogSet(b.log), Count(c));
    assert Consistent(c.info) by { LayoutIsConsistent(c.info, files); }
    PieceSizesSum(c.info, Count(c));
  }

  /** Success in terms of the torrent alone: the content of a single file is under the name of the torrent, and
      every file of several is under its own path with its own part of the content, in the order of the
      dictionary. */
  lemma {:induction false} SuccessSavesTheFiles(c: Config, join: seq<seq<byte>> -> seq<byte>, initial: Disk,
                                                files: seq<FileEntry>, content: seq<byte>, s: State)
    requires Consistent(c.info) && files == FileList(c.info, join)
    requires forall i, j :: 0 <= i < j < |files| ==> files[i].path != files[j].path
    requires |content| == Total(c.info) && Published(c, content)
    requires forall k :: 0 <= k < |files| ==> files[k].path !in initial
    requires Reachable(c, s) && s.books.pc == Returned(Success) && NoCollisions(c, content, s.books.log)
    ensures Layout(c.info, files) && Fitting(c, s.books.log)
    ensures var disk := DiskAfter(c, initial, files, s.books.log);
            && (c.info.length > 0 ==> join([c.info.name]) in disk && disk[join([c.info.name])] == content)
            && (c.info.length <= 0 ==> forall k :: 0 <= k < |c.info.files| ==> SavedFile(c.info, join, content, disk, k))
  {
    ListedFiles(c.info, join, files);
    hide Reachable, Published, NoCollisions, DiskAfter, Consistent, Complete, AllBytes;
    SuccessIsComplete(c, initial, files, content, s);
    CompleteSaves(c.info, join, files, content, DiskAfter(c, initial, files, s.books.log));
  }

  /** File `k` of the torrent is where its name and path say, with its part of the content; an empty one may be
      missing. */
  ghost predicate SavedFile(info: Info, join: seq<seq<byte>> -> seq<byte>, content: seq<byte>, disk: Disk, k: nat)
    requires k < |info.files|
  {
    var path := join([info.name] + info.files[k].path);
    var from, until := SumLengths(info.files[..k]), SumLengths(info.files[..k + 1]);
    && 0 <= from <= until <= |content| && until - from == info.files[k].length
    && (path in disk ==> disk[path] == content[from..until])
    && (info.files[k].length > 0 ==> path in disk)
  }

  lemma {:induction false} ListedFiles(info: Info, join: seq<seq<byte>> -> seq<byte>, files: seq<FileEntry>)
    requires Consistent(info) && files == FileList(info, join)
    requires forall i, j :: 0 <= i < j < |files| ==> files[i].path != files[j].path
    ensures Layout(info, files)
  {
    hide PieceStart, Total;
    FilesCoverContent(info, join);
  }

  lemma {:induction false} CompleteSaves(info: Info, join: seq<seq<byte>> -> seq<byte>, files: seq<FileEntry>,
                                         content: seq<byte>, disk: Disk)
    requires files == FileList(info, join) && Complete(disk, files, content) && ValidFiles(files)
    requires FileStart(files, |files|) == |content|
    ensures info.length > 0 ==> join([info.name]) in disk && disk[join([info.name])] == content
    ensures info.length <= 0 ==> forall k :: 0 <= k < |info.files| ==> SavedFile(info, join, content, disk, k)
  {
    hide AllBytes;
    if info.length > 0 {
      assert FileComplete(disk, files, content, 0);
      assert FileStart(files, 1) == FileStart(files, 0) + files[0].length;
    } else {
      forall k | 0 <= k < |info.files| ensures SavedFile(info, join, content, disk, k) {
        assert FileComplete(disk, files, content, k);
        FileStartSums(info, join, k);
        FileStartSums(info, join, k + 1);
        NextStart(files, k);
      }
    }
  }

  lemma LayoutIsConsistent(info: Info, files: seq<FileEntry>)
    requires Layout(info, files)
    ensures Consistent(info)
  {
  }

  ghost predicate WrittenOnce(c: Config, log: seq<PieceResult>, i: nat) {
    exists k :: 0 <= k < |log| && log[k].index == i && ValidResult(c, log[k])
                && forall j :: 0 <= j < |log| && log[j].index == i ==> j == k
  }

  /** Success, without any assumption on the torrent: the log holds every piece exactly once. */
  lemma {:induction false} SuccessWritesAll(c: Config, b: Books)
    requires BooksKept(c, b) && b.pc == Returned(Success)
    ensures |b.log| == Count(c) && LogSet(b.log) == Below(Count(c))
    ensures forall i: nat :: i < Count(c) ==> WrittenOnce(c, b.log, i)
    ensures b.bytes == SizeOf(c.info, LogSet(b.log), Count(c))
  {
    hide SizeOf, ValidResult, Below, TrackerExact;
    var log := b.log;
    OnceCounts(log);
    FullSubset(LogSet(log), Below(Count(c)));
    forall i: nat | i < Count(c) ensures WrittenOnce(c, log, i) {
      assert i in LogSet(log);
      var k :| 0 <= k < |log| && log[k].index == i;
      assert ValidResult(c, log[k]);
    }
  }

  lemma {:induction false} OnceCounts(log: seq<PieceResult>)
    requires Once(log)
    ensures |LogSet(log)| == |log|
  {
    if log == [] {
      assert LogSet(log) == {};
    } else {
      var front, last := log[..|log| - 1], log[|log| - 1];
      OnceCounts(front);
      assert log == front + [last];
      LogGrows(front, last);
    }
  }

  lemma FullSubset(a: set<nat>, b: set<nat>)
    requires a <= b && |a| >= |b|
    ensures a == b && |a| == |b|
  {
    assert b == a + (b - a);
  }

  lemma {:induction false} SizeOfAll(info: Info, pieces: set<nat>, k: nat)
    requires forall i: nat :: i < k ==> i in pieces
    ensures SizeOf(info, pieces, k) == SumPieceSizes(info, k)
  {
    if k > 0 { SizeOfAll(info, pieces, k - 1); }
  }

  // ---- No piece is lost ----

  /** Until endgame is active each piece is in exactly one place; from then on each uncompleted piece is
      in the tracker. While the tracker is filled both hold of the pieces already passed. */
  lemma {:induction false} NoPieceIsLost(c: Config, s: State, i: nat)
    requires Reachable(c, s) && i < Count(c)
    ensures !s.books.tracker.active ==>
              InChan(s.chan, i) + Carriers(s.workers, i) + InHand(s.books, i) + Unit(i in s.books.completed) == 1
    ensures (s.books.tracker.active || (s.books.pc.Adding? && i < s.books.pc.i)) && i !in s.books.completed ==>
              WorkOf(c.info, i) in s.books.tracker.pieces
    ensures s.books.tracker.active ==> InChan(s.chan, i) + Carriers(s.workers, i) <= 1
  {
    hide Reachable, Accounts, Stops, Capped, InChan, Carriers, Distinct, WorkOf;
    ReachableKeeps(c, s);
    assert Copies(s, i) >= 0;
    var t := s.books.tracker;
    if (t.active || (s.books.pc.Adding? && i < s.books.pc.i)) && i !in s.books.completed {
      assert i in IndexSet(t.pieces);
      var k :| 0 <= k < |t.pieces| && t.pieces[k].index == i;
      assert Genuine(c, t.pieces[k]);
    }
  }

  /** Being counted means being there. */
  lemma {:induction false} InChanIsPresence(chan: seq<PieceWork>, i: nat)
    ensures InChan(chan, i) > 0 <==> exists k :: 0 <= k < |chan| && chan[k].index == i
    ensures InChan(chan, i) <= 1 ==> forall j, k :: 0 <= j < k < |chan| && chan[j].index == i ==> chan[k].index != i
  {
    if chan != [] {
      InChanIsPresence(chan[1..], i);
      assert forall k :: 1 <= k < |chan| ==> chan[k] == chan[1..][k - 1];
      if InChan(chan[1..], i) > 0 {
        var k :| 0 <= k < |chan| - 1 && chan[1..][k].index == i;
        assert chan[k + 1].index == i;
      }
    }
  }

  lemma {:induction false} CarriersArePresent(workers: seq<Worker>, i: nat)
    ensures Carriers(workers, i) > 0 <==> exists w :: 0 <= w < |workers| && Carried(workers[w]) == Some(i)
    ensures Carriers(workers, i) <= 1 ==>
              forall v, w :: 0 <= v < w < |workers| && Carried(workers[v]) == Some(i) ==> Carried(workers[w]) != Some(i)
  {
    hide Carried;
    if workers != [] {
      CarriersArePresent(workers[1..], i);
      assert forall w :: 1 <= w < |workers| ==> workers[w] == workers[1..][w - 1];
      if Carriers(workers[1..], i) > 0 {
        var w :| 0 <= w < |workers| - 1 && Carried(workers[1..][w]) == Some(i);
        assert Carried(workers[w + 1]) == Some(i);
      }
    }
  }

  /** Before endgame no result is a duplicate. */
  lemma {:induction false} DuplicatesOnlyInEndgame(c: Config, s: State)
    requires Reachable(c, s) && s.books.pc.Got? && s.books.pc.result.index in s.books.completed
    ensures s.books.tracker.active
  {
    hide Reachable, InChan, Carriers;
    ReachableKeeps(c, s);
    assert Copies(s, s.books.pc.result.index) >= InHand(s.books, s.books.pc.result.index);
  }

  // ---- A requeue never blocks ----

  ghost function Holding(workers: seq<Worker>): nat {
    if workers == [] then 0 else (if Carried(workers[0]).Some? then 1 else 0) + Holding(workers[1..])
  }

  ghost function ChanTotal(chan: seq<PieceWork>, n: nat): nat {
    if n == 0 then 0 else ChanTotal(chan, n - 1) + InChan(chan, n - 1)
  }

  ghost function CarriedTotal(workers: seq<Worker>, n: nat): nat {
    if n == 0 then 0 else CarriedTotal(workers, n - 1) + Carriers(workers, n - 1)
  }

  lemma {:induction false} ChanTotalStep(chan: seq<PieceWork>, n: nat)
    requires chan != []
    ensures ChanTotal(chan, n) == ChanTotal(chan[1..], n) + Unit(chan[0].index < n)
  {
    if n > 0 { ChanTotalStep(chan, n - 1); }
  }

  lemma {:induction false} ChanTotalOfNone(n: nat)
    ensures ChanTotal([], n) == 0 && CarriedTotal([], n) == 0
  {
    if n > 0 { ChanTotalOfNone(n - 1); }
  }

  lemma {:induction false} ChanTotalIsLength(chan: seq<PieceWork>, n: nat)
    requires forall k :: 0 <= k < |chan| ==> chan[k].index < n
    ensures ChanTotal(chan, n) == |chan|
  {
    hide ChanTotal;
    if chan == [] {
      ChanTotalOfNone(n);
    } else {
      ChanTotalStep(chan, n);
      ChanTotalIsLength(chan[1..], n);
    }
  }

  lemma {:induction false} CarriedTotalStep(workers: seq<Worker>, n: nat)
    requires workers != []
    ensures CarriedTotal(workers, n) == CarriedTotal(workers[1..], n)
                                        + Unit(Carried(workers[0]).Some? && Carried(workers[0]).value < n)
  {
    hide Carried;
    if n > 0 { CarriedTotalStep(workers, n - 1); }
  }

  lemma {:induction false} CarriedTotalIsHolding(workers: seq<Worker>, n: nat)
    requires forall w :: 0 <= w < |workers| && Carried(workers[w]).Some? ==> Carried(workers[w]).value < n
    ensures CarriedTotal(workers, n) == Holding(workers)
  {
    hide CarriedTotal, Carried;
    if workers == [] {
      ChanTotalOfNone(n);
    } else {
      CarriedTotalStep(workers, n);
      assert Carried(workers[0]).Some? ==> Carried(workers[0]).value < n;
      forall w | 0 <= w < |workers| - 1 && Carried(workers[1..][w]).Some? ensures Carried(workers[1..][w]).value < n {
        assert workers[1..][w] == workers[w + 1];
      }
      CarriedTotalIsHolding(workers[1..], n);
    }
  }

  lemma {:induction false} TotalsBounded(c: Config, s: State, n: nat)
    requires Conserved(c, s) && n <= Count(c)
    ensures ChanTotal(s.chan, n) + CarriedTotal(s.workers, n) <= n
  {
    hide InChan, Carriers;
    if n > 0 {
      TotalsBounded(c, s, n - 1);
      assert Copies(s, n - 1) <= 1;
    }
  }

  /** The pieces in the channel and those that workers took from it are never more than the channel
      holds. */
  lemma {:induction false} PiecesFitTheChannel(c: Config, s: State)
    requires Inv(c, s)
    ensures |s.chan| + Holding(s.workers) <= Count(c)
  {
    hide BooksKept, Switched, Conserved, Capped, ChanTotal, CarriedTotal, ValidResult;
    TotalsBounded(c, s, Count(c));
    forall k | 0 <= k < |s.chan| ensures s.chan[k].index < Count(c) { assert Genuine(c, s.chan[k]); }
    ChanTotalIsLength(s.chan, Count(c));
    forall w | 0 <= w < |s.workers| && Carried(s.workers[w]).Some? ensures Carried(s.workers[w]).value < Count(c) {
      CarriedIsGenuine(c, s.workers[w]);
    }
    CarriedTotalIsHolding(s.workers, Count(c));
  }

  lemma CarriedIsGenuine(c: Config, x: Worker)
    requires PhaseGenuine(c, x.phase) && Carried(x).Some?
    ensures Carried(x).value < Count(c)
  {
    hide WorkOf, Verified;
  }

  lemma {:induction false} HoldingOne(workers: seq<Worker>, w: nat)
    requires w < |workers| && Carried(workers[w]).Some?
    ensures Holding(workers) >= 1
  {
    hide Carried;
    if w > 0 { HoldingOne(workers[1..], w - 1); }
  }

  /** A worker that puts a piece back always finds room, before and after endgame starts. */
  lemma {:induction false} RequeueNeverBlocks(c: Config, s: State, w: nat)
    requires Reachable(c, s) && !s.crashed && w < |s.workers| && s.workers[w].phase.Requeuing?
    ensures |s.chan| + Holding(s.workers) <= Count(c) && |s.chan| < Count(c)
    ensures Next(c, s, Work(w, Requeue)).Some?
  {
    hide Reachable, Inv, Holding;
    ReachableKeeps(c, s);
    PiecesFitTheChannel(c, s);
    HoldingOne(s.workers, w);
  }

  // ---- The books agree ----

  lemma SplitCount(a: set<nat>, b: set<nat>)
    requires b <= a
    ensures |a| == |a - b| + |b|
  {
    assert a == (a - b) + b;
  }

  /** The three counters of finished pieces agree, but for the piece being written; the byte counter is
      the sum of the sizes of the written pieces. */
  lemma {:induction false} CountersAgree(c: Config, s: State)
    requires Reachable(c, s)
    ensures var b := s.books;
            && b.done == b.downloaded == |b.log| && |b.completed| == b.done + |Pending(b.pc)|
            && b.bytes == SizeOf(c.info, b.completed - Pending(b.pc), Count(c))
  {
    hide Reachable, SizeOf, Stops, Switched, Conserved, Capped, Below, Once, ValidResult, AllGenuine, TrackerExact;
    ReachableKeeps(c, s);
    OnceCounts(s.books.log);
    SplitCount(s.books.completed, Pending(s.books.pc));
  }

  /** In endgame the tracker holds exactly the uncompleted pieces, without repeats, so `Remaining` is what
      is left to do; and endgame is on exactly when few pieces remain. */
  lemma {:induction false} TrackerAgrees(c: Config, s: State)
    requires Reachable(c, s)
    ensures var b := s.books;
            && (b.tracker.active ==>
                  && Distinct(b.tracker.pieces) && IndexSet(b.tracker.pieces) == Below(Count(c)) - b.completed
                  && |b.tracker.pieces| == Count(c) - |b.completed|)
            && (b.pc.Receiving? ==> (b.tracker.active <==> b.done > 0 && Count(c) - b.done <= 20))
  {
    hide Reachable, SizeOf, Switched, Conserved, Capped, Once, ValidResult, AllGenuine, GenuineAll, Distinct, LogSet, IndexSet;
    ReachableKeeps(c, s);
    DistinctCount(s.books.tracker.pieces);
    SplitCount(Below(Count(c)), s.books.completed);
  }

  /** At most two workers an address, the two counts agree. */
  lemma {:induction false} AtMostTwoWorkers(c: Config, s: State, a: Addr)
    requires Reachable(c, s)
    ensures Live(s.workers, a) == ActiveOf(s.active, a) <= MAX_WORKERS_PER_PEER
  {
    hide Reachable, BooksKept, Live, AllGenuine, Switched, Conserved;
    ReachableKeeps(c, s);
  }

  /** Every piece that a worker downloads is one that the piece download is made for, when the torrent is
      consistent. */
  lemma {:induction false} DownloadsAreValid(c: Config, s: State, w: nat)
    requires Reachable(c, s) && Consistent(c.info) && w < |s.workers| && s.workers[w].phase.Loading?
    ensures s.workers[w].phase.pw.index < Count(c) && s.workers[w].phase.pw == WorkOf(c.info, s.workers[w].phase.pw.index)
    ensures ValidWork(s.workers[w].phase.pw)
  {
    hide Reachable, BooksKept, Switched, Conserved, Capped, PieceSize;
    ReachableKeeps(c, s);
    assert PhaseGenuine(c, s.workers[w].phase);
    PiecesAbut(c.info, s.workers[w].phase.pw.index);
  }

  /** A race starts only when the switch is complete: the signal is closed, the tracker active, and every
      uncompleted piece in it. */
  lemma {:induction false} RacingFollowsTheSwitch(c: Config, s: State, w: nat)
    requires Reachable(c, s) && w < |s.workers| && Racing(s.workers[w].phase)
    ensures s.signals.egClosed && s.books.tracker.active
    ensures forall i: nat :: i < Count(c) && i !in s.books.completed ==> i in IndexSet(s.books.tracker.pieces)
  {
    hide Reachable, Accounts, Stops, Capped, AllGenuine, Conserved, Distinct, GenuineAll;
    ReachableKeeps(c, s);
  }
}
