/** Writing verified pieces to the files: the effect of one piece, of two in either order, of all of them,
    and of a write that stops half-way. */
module PieceWriter {
  import opened Prelude
  import opened Metainfo
  import opened Storage

  /** The files hold the content of the torrent and can be told apart by their paths. */
  ghost predicate Layout(info: Info, files: seq<FileEntry>) {
    Consistent(info) && ValidFiles(files) && FileStart(files, |files|) == Total(info)
  }

  /** Writing the flat range [ps, pe). */
  function WriteRange(disk: Disk, files: seq<FileEntry>, ps: int, pe: int, data: Bytes): Disk
    requires ValidFiles(files) && 0 <= ps <= pe <= FileStart(files, |files|) && |data| == pe - ps
  {
    RangeFits(disk, files, ps, pe, data);
    WriteSegments(disk, Segments(files, 0, ps, pe), data)
  }

  lemma RangeFits(disk: Disk, files: seq<FileEntry>, ps: int, pe: int, data: Bytes)
    requires ValidFiles(files) && 0 <= ps <= pe <= FileStart(files, |files|) && |data| == pe - ps
    ensures Fits(Segments(files, 0, ps, pe), data)
    ensures Effect(disk, WriteSegments(disk, Segments(files, 0, ps, pe), data), files, 0, ps, pe, data)
  {
    WriteEffect(disk, files, 0, ps, pe, data);
    assert Cut(files, 0, ps, pe) == 0;
    assert data[0..] == data;
  }

  function WritePieceOn(disk: Disk, files: seq<FileEntry>, info: Info, index: nat, data: Bytes): Disk
    requires Layout(info, files) && index < NumPieces(info) && |data| == PieceSize(info, index)
  {
    PiecesAbut(info, index);
    WriteRange(disk, files, PieceStart(info, index), PieceStart(info, index) + PieceSize(info, index), data)
  }

  // ---- Two writes ----

  lemma WriteAtCommutes(c: Bytes, a: nat, x: Bytes, b: nat, y: Bytes)
    requires a + |x| <= b || b + |y| <= a
    ensures WriteAt(WriteAt(c, a, x), b, y) == WriteAt(WriteAt(c, b, y), a, x)
  {
  }

  lemma WriteAtTwice(c: Bytes, a: nat, x: Bytes)
    ensures WriteAt(WriteAt(c, a, x), a, x) == WriteAt(c, a, x)
  {
  }

  lemma {:induction false} FileAfterCommutes(was: Option<Bytes>, files: seq<FileEntry>, k: nat,
                                             ps: int, pe: int, data: Bytes, qs: int, qe: int, other: Bytes)
    requires ValidFiles(files) && k < |files|
    requires 0 <= ps <= pe && |data| == pe - ps && 0 <= qs <= qe && |other| == qe - qs && (pe <= qs || qe <= ps)
    ensures FileAfter(FileAfter(was, files, k, ps, pe, data), files, k, qs, qe, other)
         == FileAfter(FileAfter(was, files, k, qs, qe, other), files, k, ps, pe, data)
  {
    hide WriteAt, Overlaps, Part, PartOffset;
    if Overlaps(files, k, ps, pe) && Overlaps(files, k, qs, qe) {
      PartBounds(files, k, ps, pe, data);
      PartBounds(files, k, qs, qe, other);
      WriteAtCommutes(Value(was), PartOffset(files, k, ps), Part(files, k, ps, pe, data),
                      PartOffset(files, k, qs), Part(files, k, qs, qe, other));
    }
  }

  lemma {:induction false} FileAfterTwice(was: Option<Bytes>, files: seq<FileEntry>, k: nat, ps: int, pe: int, data: Bytes)
    requires ValidFiles(files) && k < |files| && 0 <= ps <= pe && |data| == pe - ps
    ensures FileAfter(FileAfter(was, files, k, ps, pe, data), files, k, ps, pe, data) == FileAfter(was, files, k, ps, pe, data)
  {
    hide WriteAt, Overlaps, Part, PartOffset;
    WriteAtTwice(Value(was), PartOffset(files, k, ps), Part(files, k, ps, pe, data));
  }

  lemma DiskIsItsLookups(a: Disk, b: Disk)
    requires forall p :: Lookup(a, p) == Lookup(b, p)
    ensures a == b
  {
    forall p ensures (p in a) == (p in b) && (p in a ==> a[p] == b[p]) {
      assert Lookup(a, p) == Lookup(b, p);
    }
  }

  lemma {:induction false} RangeWritesCommute(disk: Disk, files: seq<FileEntry>,
                                              ps: int, pe: int, data: Bytes, qs: int, qe: int, other: Bytes)
    requires ValidFiles(files) && 0 <= ps <= pe <= FileStart(files, |files|) && |data| == pe - ps
    requires 0 <= qs <= qe <= FileStart(files, |files|) && |other| == qe - qs && (pe <= qs || qe <= ps)
    ensures WriteRange(WriteRange(disk, files, ps, pe, data), files, qs, qe, other)
         == WriteRange(WriteRange(disk, files, qs, qe, other), files, ps, pe, data)
  {
    hide WriteSegments, Segments, FileAfter, Lookup;
    var d1, d2 := WriteRange(disk, files, ps, pe, data), WriteRange(disk, files, qs, qe, other);
    var d12, d21 := WriteRange(d1, files, qs, qe, other), WriteRange(d2, files, ps, pe, data);
    RangeFits(disk, files, ps, pe, data);
    RangeFits(disk, files, qs, qe, other);
    RangeFits(d1, files, qs, qe, other);
    RangeFits(d2, files, ps, pe, data);
    forall p ensures Lookup(d12, p) == Lookup(d21, p) {
      if p in PathSet(files, 0) {
        var k :| 0 <= k < |files| && files[k].path == p;
        FileAfterCommutes(Lookup(disk, p), files, k, ps, pe, data, qs, qe, other);
      }
    }
    DiskIsItsLookups(d12, d21);
  }

  /** Writes of different pieces can be done in either order. */
  lemma {:induction false} PieceWritesCommute(disk: Disk, files: seq<FileEntry>, info: Info,
                                              i: nat, data: Bytes, j: nat, other: Bytes)
    requires Layout(info, files) && i < NumPieces(info) && j < NumPieces(info) && i != j
    requires |data| == PieceSize(info, i) && |other| == PieceSize(info, j)
    ensures WritePieceOn(WritePieceOn(disk, files, info, i, data), files, info, j, other)
         == WritePieceOn(WritePieceOn(disk, files, info, j, other), files, info, i, data)
  {
    hide PieceStart, PieceSize, WriteRange, ValidFiles, Total;
    PiecesAbut(info, i);
    PiecesAbut(info, j);
    PieceStartMonotone(info, i, if i < j then j else i);
    PieceStartMonotone(info, j, if j < i then i else j);
    RangeWritesCommute(disk, files, PieceStart(info, i), PieceStart(info, i) + PieceSize(info, i), data,
                       PieceStart(info, j), PieceStart(info, j) + PieceSize(info, j), other);
  }

  /** Writing a piece again with the same data changes nothing. */
  lemma {:induction false} PieceWriteIsIdempotent(disk: Disk, files: seq<FileEntry>, info: Info, i: nat, data: Bytes)
    requires Layout(info, files) && i < NumPieces(info) && |data| == PieceSize(info, i)
    ensures WritePieceOn(WritePieceOn(disk, files, info, i, data), files, info, i, data)
         == WritePieceOn(disk, files, info, i, data)
  {
    hide WriteSegments, Segments, FileAfter, Lookup;
    PiecesAbut(info, i);
    var ps, pe := PieceStart(info, i), PieceStart(info, i) + PieceSize(info, i);
    var d1 := WriteRange(disk, files, ps, pe, data);
    var d2 := WriteRange(d1, files, ps, pe, data);
    RangeFits(disk, files, ps, pe, data);
    RangeFits(d1, files, ps, pe, data);
    forall p ensures Lookup(d2, p) == Lookup(d1, p) {
      if p in PathSet(files, 0) {
        var k :| 0 <= k < |files| && files[k].path == p;
        FileAfterTwice(Lookup(disk, p), files, k, ps, pe, data);
      }
    }
    DiskIsItsLookups(d2, d1);
  }

  // ---- All pieces ----

  predicate InPiece(info: Info, i: nat, q: int) { PieceStart(info, i) <= q < PieceStart(info, i) + PieceSize(info, i) }

  function PieceSlice(info: Info, content: Bytes, i: nat): (s: Bytes)
    requires Consistent(info) && |content| == Total(info) && i < NumPieces(info)
    ensures |s| == PieceSize(info, i)
  {
    PiecesAbut(info, i);
    content[PieceStart(info, i)..PieceStart(info, i) + PieceSize(info, i)]
  }

  /** Byte `x` of a file that begins at `fs` is the byte of the flat content. */
  ghost predicate ByteInPlace(c: Bytes, content: Bytes, fs: int, x: int) {
    0 <= x < |c| && 0 <= fs + x < |content| && c[x] == content[fs + x]
  }

  /** File `k` is no longer than it should be, and every byte of a written piece is in place. */
  ghost predicate FileHolds(c: Bytes, files: seq<FileEntry>, info: Info, content: Bytes, written: set<nat>, k: nat)
    requires k < |files|
  {
    && |c| <= files[k].length
    && forall i, x :: i in written && 0 <= x < files[k].length && InPiece(info, i, FileStart(files, k) + x) ==>
         ByteInPlace(c, content, FileStart(files, k), x)
  }

  ghost predicate Holds(disk: Disk, files: seq<FileEntry>, info: Info, content: Bytes, written: set<nat>)
    requires Layout(info, files) && |content| == Total(info)
  {
    forall k :: 0 <= k < |files| ==> FileHolds(Contents(disk, files[k].path), files, info, content, written, k)
  }

  /** A file that the piece meets. */
  lemma {:induction false} MetFileHolds(c: Bytes, files: seq<FileEntry>, info: Info, content: Bytes,
                                        written: set<nat>, i: nat, k: nat)
    requires Layout(info, files) && |content| == Total(info) && i < NumPieces(info) && k < |files|
    requires 0 <= PieceStart(info, i) <= PieceStart(info, i) + PieceSize(info, i)
    requires FileHolds(c, files, info, content, written, k)
    requires Overlaps(files, k, PieceStart(info, i), PieceStart(info, i) + PieceSize(info, i))
    ensures var ps, pe := PieceStart(info, i), PieceStart(info, i) + PieceSize(info, i);
            FileHolds(WriteAt(c, PartOffset(files, k, ps), Part(files, k, ps, pe, PieceSlice(info, content, i))),
                      files, info, content, written + {i}, k)
  {
    hide PieceSize, PieceStart, FileStart, WriteAt, Overlaps, ByteInPlace, Part, PartOffset, PieceSlice, Consistent, Total, Cut;
    var ps := PieceStart(info, i);
    var pe := ps + PieceSize(info, i);
    var fs := FileStart(files, k);
    var slice := PieceSlice(info, content, i);
    var offset, part := PartOffset(files, k, ps), Part(files, k, ps, pe, slice);
    PartBounds(files, k, ps, pe, slice);
    FileStartMonotone(files, 0, k);
    SliceIsContent(info, content, i, fs + offset, |part|);
    WriteAtLength(c, offset, part);
    forall j, x | j in written + {i} && 0 <= x < files[k].length && InPiece(info, j, fs + x)
      ensures ByteInPlace(WriteAt(c, offset, part), content, fs, x)
    {
      if j == i {
        assert offset <= x < offset + |part|;
      } else {
        assert ByteInPlace(c, content, fs, x);
      }
      PatchedByte(c, offset, part, content, fs, x);
    }
  }

  /** A file that it does not meet. */
  lemma {:induction false} UnmetFileHolds(c: Bytes, files: seq<FileEntry>, info: Info, content: Bytes,
                                          written: set<nat>, i: nat, k: nat)
    requires k < |files| && FileHolds(c, files, info, content, written, k)
    requires !Overlaps(files, k, PieceStart(info, i), PieceStart(info, i) + PieceSize(info, i))
    ensures FileHolds(c, files, info, content, written + {i}, k)
  {
    hide PieceSize, PieceStart, FileStart, Overlaps, ByteInPlace;
    var fs := FileStart(files, k);
    forall j, x | j in written + {i} && 0 <= x < files[k].length && InPiece(info, j, fs + x)
      ensures ByteInPlace(c, content, fs, x)
    {
      if j == i { NoByteMet(info, i, files, k, x); }
    }
  }

  lemma {:induction false} FileHoldsStep(was: Option<Bytes>, files: seq<FileEntry>, info: Info, content: Bytes,
                                         written: set<nat>, i: nat, k: nat)
    requires Layout(info, files) && |content| == Total(info) && i < NumPieces(info) && k < |files|
    requires 0 <= PieceStart(info, i) <= PieceStart(info, i) + PieceSize(info, i)
    requires FileHolds(Value(was), files, info, content, written, k)
    ensures FileHolds(Value(FileAfter(was, files, k, PieceStart(info, i), PieceStart(info, i) + PieceSize(info, i),
                                      PieceSlice(info, content, i))), files, info, content, written + {i}, k)
  {
    hide FileHolds, PieceSize, PieceStart, WriteAt, Overlaps, Part, PartOffset, PieceSlice;
    if Overlaps(files, k, PieceStart(info, i), PieceStart(info, i) + PieceSize(info, i)) {
      MetFileHolds(Value(was), files, info, content, written, i, k);
    } else {
      UnmetFileHolds(Value(was), files, info, content, written, i, k);
    }
  }

  lemma SliceIsContent(info: Info, content: Bytes, i: nat, q: int, n: nat)
    requires Consistent(info) && |content| == Total(info) && i < NumPieces(info)
    requires PieceStart(info, i) <= q && q + n <= PieceStart(info, i) + PieceSize(info, i)
    ensures 0 <= q && q + n <= |content|
    ensures PieceSlice(info, content, i)[q - PieceStart(info, i)..q + n - PieceStart(info, i)] == content[q..q + n]
  {
    PiecesAbut(info, i);
    hide PieceSize, PieceStart, Consistent, Total;
    var ps, size := PieceStart(info, i), PieceSize(info, i);
    SliceOfSlice(content, ps, ps + size, q - ps, q + n - ps);
  }

  lemma SliceOfSlice(s: Bytes, a: nat, b: nat, c: nat, d: nat)
    requires a <= b <= |s| && c <= d <= b - a
    ensures s[a..b][c..d] == s[a + c..a + d]
  {
    var t := s[a..b];
    assert forall x :: 0 <= x < d - c ==> t[c..d][x] == t[c + x];
  }

  lemma NoByteMet(info: Info, i: nat, files: seq<FileEntry>, k: nat, x: nat)
    requires k < |files| && x < files[k].length
    requires !Overlaps(files, k, PieceStart(info, i), PieceStart(info, i) + PieceSize(info, i))
    ensures !InPiece(info, i, FileStart(files, k) + x)
  {
    hide PieceSize, PieceStart, FileStart;
    NextStart(files, k);
  }

  lemma WriteAtLength(c: Bytes, offset: nat, part: Bytes)
    ensures |WriteAt(c, offset, part)| <= Max(|c|, offset + |part|)
  {
  }

  lemma PatchedByte(c: Bytes, offset: nat, part: Bytes, content: Bytes, fs: int, x: nat)
    requires 0 <= fs && fs + offset + |part| <= |content| && part == content[fs + offset..fs + offset + |part|]
    requires offset <= x < offset + |part| || ByteInPlace(c, content, fs, x)
    ensures ByteInPlace(WriteAt(c, offset, part), content, fs, x)
  {
  }

  /** Writing one more piece of the content keeps what is in place and adds that piece. */
  lemma {:induction false} HoldsStep(disk: Disk, files: seq<FileEntry>, info: Info, content: Bytes, written: set<nat>, i: nat)
    requires Layout(info, files) && |content| == Total(info) && i < NumPieces(info)
    requires Holds(disk, files, info, content, written)
    ensures Holds(WritePieceOn(disk, files, info, i, PieceSlice(info, content, i)), files, info, content, written + {i})
  {
    hide WriteSegments, Segments, FileAfter, FileHolds, PieceSize, PieceStart;
    PiecesAbut(info, i);
    var slice := PieceSlice(info, content, i);
    var after := WritePieceOn(disk, files, info, i, slice);
    RangeFits(disk, files, PieceStart(info, i), PieceStart(info, i) + PieceSize(info, i), slice);
    forall k | 0 <= k < |files| ensures FileHolds(Contents(after, files[k].path), files, info, content, written + {i}, k) {
      FileHoldsStep(Lookup(disk, files[k].path), files, info, content, written, i, k);
    }
  }

  lemma {:induction false} HoldsInitially(disk: Disk, files: seq<FileEntry>, info: Info, content: Bytes)
    requires Layout(info, files) && |content| == Total(info)
    requires forall k :: 0 <= k < |files| ==> files[k].path !in disk
    ensures Holds(disk, files, info, content, {})
  {
  }

  /** Once every piece is written, each file of positive length exists and holds its slice of the flat
      content, and no file holds anything else. */
  lemma {:induction false} HoldsAll(disk: Disk, files: seq<FileEntry>, info: Info, content: Bytes, written: set<nat>, k: nat)
    requires Layout(info, files) && |content| == Total(info) && k < |files|
    requires forall i :: 0 <= i < NumPieces(info) ==> i in written
    requires Holds(disk, files, info, content, written)
    ensures 0 <= FileStart(files, k) <= FileStart(files, k + 1) <= |content|
    ensures Contents(disk, files[k].path) == content[FileStart(files, k)..FileStart(files, k + 1)]
    ensures files[k].length > 0 ==> files[k].path in disk
  {
    hide PieceSize, PieceStart, ByteInPlace;
    FileStartMonotone(files, 0, k);
    FileStartMonotone(files, k, k + 1);
    FileStartMonotone(files, k + 1, |files|);
    var c := Contents(disk, files[k].path);
    assert FileHolds(c, files, info, content, written, k);
    forall x | 0 <= x < files[k].length ensures ByteInPlace(c, content, FileStart(files, k), x) {
      var i := PieceOf(info, FileStart(files, k) + x);
      assert i in written && InPiece(info, i, FileStart(files, k) + x);
    }
    AllInPlace(c, content, FileStart(files, k), files[k].length);
  }

  lemma AllInPlace(c: Bytes, content: Bytes, fs: nat, length: nat)
    requires |c| <= length && fs + length <= |content|
    requires forall x :: 0 <= x < length ==> ByteInPlace(c, content, fs, x)
    ensures c == content[fs..fs + length]
  {
    if length > 0 { assert ByteInPlace(c, content, fs, length - 1); }
    assert |c| == length;
    forall x | 0 <= x < length ensures c[x] == content[fs..fs + length][x] {
      assert ByteInPlace(c, content, fs, x);
    }
  }

  /** The files laid end to end. */
  function AllBytes(disk: Disk, files: seq<FileEntry>, k: nat): Bytes
    requires k <= |files|
  {
    if k == 0 then [] else AllBytes(disk, files, k - 1) + Contents(disk, files[k - 1].path)
  }

  lemma {:induction false} FilesAreTheContent(disk: Disk, files: seq<FileEntry>, info: Info, content: Bytes, written: set<nat>, k: nat)
    requires Layout(info, files) && |content| == Total(info) && k <= |files|
    requires forall i :: 0 <= i < NumPieces(info) ==> i in written
    requires Holds(disk, files, info, content, written)
    ensures 0 <= FileStart(files, k) <= |content| && AllBytes(disk, files, k) == content[..FileStart(files, k)]
  {
    hide Holds;
    if k > 0 {
      HoldsAll(disk, files, info, content, written, k - 1);
      FilesAreTheContent(disk, files, info, content, written, k - 1);
      assert content[..FileStart(files, k)]
          == content[..FileStart(files, k - 1)] + content[FileStart(files, k - 1)..FileStart(files, k)];
    }
  }

  /** Every file has its slice of the flat content, those of positive length exist, and laid end to
      end they are the content. */
  ghost predicate Complete(disk: Disk, files: seq<FileEntry>, content: Bytes) {
    && AllBytes(disk, files, |files|) == content
    && forall k :: 0 <= k < |files| ==> FileComplete(disk, files, content, k)
  }

  ghost predicate FileComplete(disk: Disk, files: seq<FileEntry>, content: Bytes, k: nat)
    requires k < |files|
  {
    && 0 <= FileStart(files, k) <= FileStart(files, k + 1) <= |content|
    && Contents(disk, files[k].path) == content[FileStart(files, k)..FileStart(files, k + 1)]
    && (files[k].length > 0 ==> files[k].path in disk)
  }

  lemma {:induction false} HoldingAllIsComplete(disk: Disk, files: seq<FileEntry>, info: Info, content: Bytes, written: set<nat>)
    requires Layout(info, files) && |content| == Total(info)
    requires forall i :: 0 <= i < NumPieces(info) ==> i in written
    requires Holds(disk, files, info, content, written)
    ensures Complete(disk, files, content)
  {
    hide Holds, AllBytes;
    FilesAreTheContent(disk, files, info, content, written, |files|);
    assert content[..|content|] == content;
    forall k | 0 <= k < |files| ensures FileComplete(disk, files, content, k) {
      HoldsAll(disk, files, info, content, written, k);
    }
  }

  ghost predicate ArePieces(order: seq<nat>, info: Info) {
    forall s :: 0 <= s < |order| ==> order[s] < NumPieces(info)
  }

  ghost function Indices(order: seq<nat>): set<nat> { set i | i in order }

  /** Writing the pieces of the content in a given order, possibly some more than once. */
  ghost function WriteInOrder(disk: Disk, files: seq<FileEntry>, info: Info, content: Bytes, order: seq<nat>): Disk
    requires Layout(info, files) && |content| == Total(info) && ArePieces(order, info)
  {
    if order == [] then disk
    else
      var last := order[|order| - 1];
      WritePieceOn(WriteInOrder(disk, files, info, content, order[..|order| - 1]), files, info, last,
                   PieceSlice(info, content, last))
  }

  lemma {:induction false} OrderHolds(disk: Disk, files: seq<FileEntry>, info: Info, content: Bytes, order: seq<nat>)
    requires Layout(info, files) && |content| == Total(info) && ArePieces(order, info)
    requires forall k :: 0 <= k < |files| ==> files[k].path !in disk
    ensures Holds(WriteInOrder(disk, files, info, content, order), files, info, content, Indices(order))
  {
    hide Holds, WritePieceOn;
    if order == [] {
      HoldsInitially(disk, files, info, content);
      assert Indices(order) == {};
    } else {
      var front, last := order[..|order| - 1], order[|order| - 1];
      var written := Indices(front);
      OrderHolds(disk, files, info, content, front);
      HoldsStep(WriteInOrder(disk, files, info, content, front), files, info, content, written, last);
      assert Indices(order) == written + {last} by {
        assert order == front + [last];
      }
    }
  }

  /** Writing all pieces in any order, from absent files, leaves the files complete. */
  lemma {:induction false} AnyOrderWritesTheContent(disk: Disk, files: seq<FileEntry>, info: Info, content: Bytes, order: seq<nat>)
    requires Layout(info, files) && |content| == Total(info) && ArePieces(order, info)
    requires forall i :: 0 <= i < NumPieces(info) ==> i in order
    requires forall k :: 0 <= k < |files| ==> files[k].path !in disk
    ensures Complete(WriteInOrder(disk, files, info, content, order), files, content)
  {
    hide Holds, WriteInOrder;
    assert forall i :: 0 <= i < NumPieces(info) ==> i in Indices(order);
    OrderHolds(disk, files, info, content, order);
    HoldingAllIsComplete(WriteInOrder(disk, files, info, content, order), files, info, content, Indices(order));
  }

  // ---- A write that stops half-way ----

  /** Byte `x` of file `k` is among the first `m` bytes of the range that begins at `ps`. */
  predicate Reached(files: seq<FileEntry>, k: nat, x: int, ps: int, m: int)
    requires k < |files|
  {
    0 <= x < files[k].length && ps <= FileStart(files, k) + x < ps + m
  }

  /** File `k` was `c` and is `d` once the first `m` bytes of `data` are written from `ps` on. */
  ghost predicate TornFile(c: Bytes, d: Bytes, files: seq<FileEntry>, k: nat, ps: int, data: Bytes, m: nat)
    requires k < |files| && m <= |data|
  {
    && |c| <= |d| <= Max(|c|, files[k].length)
    && (forall x :: 0 <= x < |d| ==>
          d[x] == if Reached(files, k, x, ps, m) then data[FileStart(files, k) + x - ps] else if x < |c| then c[x] else 0)
    && (forall x :: Reached(files, k, x, ps, m) ==> x < |d|)
  }

  /** Exactly the first `m` bytes of `data` have reached the disk: what a write may leave behind when it
      fails, and where it is while it is in progress. */
  ghost predicate Torn(before: Disk, after: Disk, files: seq<FileEntry>, ps: int, data: Bytes, m: nat)
    requires m <= |data|
  {
    && (forall k :: 0 <= k < |files| ==>
          TornFile(Contents(before, files[k].path), Contents(after, files[k].path), files, k, ps, data, m))
    && (forall p :: p !in PathSet(files, 0) ==> Lookup(after, p) == Lookup(before, p))
  }

  lemma TornNothing(disk: Disk, files: seq<FileEntry>, ps: int, data: Bytes)
    ensures Torn(disk, disk, files, ps, data, 0)
  {
  }

  /** The file that is written next. */
  lemma {:induction false} TornHere(c: Bytes, d: Bytes, files: seq<FileEntry>, k: nat, seg: Segment,
                                    ps: int, data: Bytes, m: nat, n: nat)
    requires k < |files| && m + n <= |data| && TornFile(c, d, files, k, ps, data, m)
    requires FitsFile(files, k, seg, ps + m) && n <= seg.length
    ensures TornFile(c, WriteAt(d, seg.offset, data[m..m + n]), files, k, ps, data, m + n)
  {
    hide WriteAt, FileStart;
    var part, fs, t := data[m..m + n], FileStart(files, k), m + n;
    var e := WriteAt(d, seg.offset, part);
    assert fs + seg.offset == ps + m;
    forall x | 0 <= x < |e|
      ensures e[x] == if Reached(files, k, x, ps, t) then data[fs + x - ps] else if x < |c| then c[x] else 0
    {
      if seg.offset <= x < seg.offset + n {
        assert part[x - seg.offset] == data[fs + x - ps];
      } else {
        assert Reached(files, k, x, ps, t) == Reached(files, k, x, ps, m);
      }
    }
    forall x | Reached(files, k, x, ps, t) ensures x < |e| {
      if !(seg.offset <= x < seg.offset + n) { assert Reached(files, k, x, ps, m); }
    }
  }

  /** A file that the next bytes do not belong to. */
  lemma {:induction false} TornElsewhere(c: Bytes, d: Bytes, files: seq<FileEntry>, j: nat, k: nat, seg: Segment,
                                         ps: int, data: Bytes, m: nat, n: nat)
    requires ValidFiles(files) && j < |files| && k < |files| && j != k && m + n <= |data|
    requires TornFile(c, d, files, j, ps, data, m) && FitsFile(files, k, seg, ps + m) && n <= seg.length
    ensures TornFile(c, d, files, j, ps, data, m + n)
  {
    hide FileStart;
    NextStart(files, j);
    NextStart(files, k);
    if j < k { FileStartMonotone(files, j + 1, k); } else { FileStartMonotone(files, k + 1, j); }
    var t := m + n;
    assert forall x :: Reached(files, j, x, ps, t) ==> Reached(files, j, x, ps, m);
    assert forall x :: Reached(files, j, x, ps, m) ==> Reached(files, j, x, ps, t);
  }

  /** Writing `n` more bytes, those of a segment or its beginning. */
  lemma {:induction false} TornMore(before: Disk, mid: Disk, after: Disk, files: seq<FileEntry>, k: nat, seg: Segment,
                                    ps: int, data: Bytes, m: nat, n: nat)
    requires ValidFiles(files) && k < |files| && m + n <= |data| && Torn(before, mid, files, ps, data, m)
    requires FitsFile(files, k, seg, ps + m) && n <= seg.length
    requires Contents(after, seg.path) == WriteAt(Contents(mid, seg.path), seg.offset, data[m..m + n])
    requires forall p :: p != seg.path ==> Lookup(after, p) == Lookup(mid, p)
    ensures Torn(before, after, files, ps, data, m + n)
  {
    hide TornFile, WriteAt, FileStart;
    assert seg.path == files[k].path && seg.path in PathSet(files, 0);
    forall j | 0 <= j < |files|
      ensures TornFile(Contents(before, files[j].path), Contents(after, files[j].path), files, j, ps, data, m + n)
    {
      var c, d := Contents(before, files[j].path), Contents(mid, files[j].path);
      if j == k {
        TornHere(c, d, files, k, seg, ps, data, m, n);
      } else {
        assert files[j].path != files[k].path;
        assert Lookup(after, files[j].path) == Lookup(mid, files[j].path);
        TornElsewhere(c, d, files, j, k, seg, ps, data, m, n);
      }
    }
  }

  /** However far the write of one more piece of the content gets, the bytes of all written pieces stay in
      place. */
  lemma {:induction false} TornHolds(before: Disk, after: Disk, files: seq<FileEntry>, info: Info, content: Bytes,
                                     written: set<nat>, i: nat, m: nat)
    requires Layout(info, files) && |content| == Total(info) && i < NumPieces(info) && m <= PieceSize(info, i)
    requires Holds(before, files, info, content, written)
    requires Torn(before, after, files, PieceStart(info, i), PieceSlice(info, content, i), m)
    ensures Holds(after, files, info, content, written)
  {
    hide TornFile, FileHolds, PieceSize, PieceStart, PieceSlice;
    forall k | 0 <= k < |files| ensures FileHolds(Contents(after, files[k].path), files, info, content, written, k) {
      TornFileHolds(Contents(before, files[k].path), Contents(after, files[k].path), files, info, content, written, i, k, m);
    }
  }

  lemma {:induction false} TornFileHolds(c: Bytes, d: Bytes, files: seq<FileEntry>, info: Info, content: Bytes,
                                         written: set<nat>, i: nat, k: nat, m: nat)
    requires Layout(info, files) && |content| == Total(info) && i < NumPieces(info) && k < |files| && m <= PieceSize(info, i)
    requires FileHolds(c, files, info, content, written, k)
    requires TornFile(c, d, files, k, PieceStart(info, i), PieceSlice(info, content, i), m)
    ensures FileHolds(d, files, info, content, written, k)
  {
    PiecesAbut(info, i);
    hide PieceSize, PieceStart, FileStart;
    var ps, fs := PieceStart(info, i), FileStart(files, k);
    forall j, x | j in written && 0 <= x < files[k].length && InPiece(info, j, fs + x) ensures ByteInPlace(d, content, fs, x) {
      assert ByteInPlace(c, content, fs, x);
      if Reached(files, k, x, ps, m) {
        assert PieceSlice(info, content, i)[fs + x - ps] == content[fs + x];
      }
    }
  }
}
