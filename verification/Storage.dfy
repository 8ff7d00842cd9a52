/** From pieces to files: how a piece is cut into file segments, and what writing it does to the
    files. The reference is one flat stream of bytes cut by the file lengths. */
module Storage {
  import opened Prelude
  import opened Metainfo

  type Bytes = seq<byte>

  datatype FileEntry = FileEntry(path: Bytes, length: int)

  datatype Segment = Segment(path: Bytes, offset: int, length: int)

  /** The contents of the files that exist. */
  type Disk = map<Bytes, Bytes>

  /** The files in order; `join` is the library's path joining under the output directory. */
  function FileList(info: Info, join: seq<Bytes> -> Bytes): seq<FileEntry> {
    if info.length > 0 then [FileEntry(join([info.name]), info.length)]
    else seq(|info.files|, i requires 0 <= i < |info.files| =>
                             FileEntry(join([info.name] + info.files[i].path), info.files[i].length))
  }

  /** Where file `k` begins in the flat stream. */
  function FileStart(files: seq<FileEntry>, k: nat): int
    requires k <= |files|
  {
    if k == 0 then 0 else FileStart(files, k - 1) + files[k - 1].length
  }

  ghost predicate ValidFiles(files: seq<FileEntry>) {
    && (forall i :: 0 <= i < |files| ==> 0 <= files[i].length)
    && (forall i, j :: 0 <= i < j < |files| ==> files[i].path != files[j].path)
  }

  lemma {:induction false} FileStartMonotone(files: seq<FileEntry>, i: nat, j: nat)
    requires ValidFiles(files) && i <= j <= |files|
    ensures 0 <= FileStart(files, i) <= FileStart(files, j)
    decreases j
  {
    if j > 0 {
      if i < j { FileStartMonotone(files, i, j - 1); } else { FileStartMonotone(files, i - 1, j - 1); }
    }
  }

  /** The files cut the whole content. */
  lemma {:induction false} FilesCoverContent(info: Info, join: seq<Bytes> -> Bytes)
    ensures var files := FileList(info, join); FileStart(files, |files|) == Total(info)
  {
    var files := FileList(info, join);
    if info.length > 0 {
      assert FileStart(files, 1) == FileStart(files, 0) + files[0].length;
    } else {
      FileStartSums(info, join, |info.files|);
      assert info.files[..|info.files|] == info.files;
    }
  }

  lemma {:induction false} FileStartSums(info: Info, join: seq<Bytes> -> Bytes, k: nat)
    requires info.length <= 0 && k <= |info.files|
    ensures FileStart(FileList(info, join), k) == SumLengths(info.files[..k])
  {
    if k > 0 {
      FileStartSums(info, join, k - 1);
      assert info.files[..k][..k - 1] == info.files[..k - 1];
    }
  }

  // ---- Segments ----

  /** Where file `k` cuts the range [ps, pe), counted from its start. */
  function Cut(files: seq<FileEntry>, k: nat, ps: int, pe: int): (c: int)
    requires k <= |files|
    ensures ps <= pe ==> 0 <= c <= pe - ps
  {
    Max(ps, Min(pe, FileStart(files, k))) - ps
  }

  predicate Overlaps(files: seq<FileEntry>, k: nat, ps: int, pe: int)
    requires k < |files|
  {
    FileStart(files, k + 1) > ps && FileStart(files, k) < pe
  }

  /** The files among `k..` that the range [ps, pe) meets, in order. */
  function FilesMet(files: seq<FileEntry>, k: nat, ps: int, pe: int): seq<nat>
    requires k <= |files|
    decreases |files| - k
  {
    if k == |files| then []
    else if Overlaps(files, k, ps, pe) then [k] + FilesMet(files, k + 1, ps, pe)
    else FilesMet(files, k + 1, ps, pe)
  }

  function SegmentOf(files: seq<FileEntry>, k: nat, ps: int, pe: int): Segment
    requires k < |files|
  {
    var start := Max(ps, FileStart(files, k));
    Segment(files[k].path, start - FileStart(files, k), Min(pe, FileStart(files, k + 1)) - start)
  }

  function Segments(files: seq<FileEntry>, k: nat, ps: int, pe: int): seq<Segment>
    requires k <= |files|
    decreases |files| - k
  {
    if k == |files| then []
    else if Overlaps(files, k, ps, pe) then [SegmentOf(files, k, ps, pe)] + Segments(files, k + 1, ps, pe)
    else Segments(files, k + 1, ps, pe)
  }

  function SumSegments(segs: seq<Segment>): int {
    if segs == [] then 0 else SumSegments(segs[..|segs| - 1]) + segs[|segs| - 1].length
  }

  lemma {:induction false} NothingMet(files: seq<FileEntry>, k: nat, ps: int, pe: int)
    requires ValidFiles(files) && k <= |files| && FileStart(files, k) >= pe
    ensures Segments(files, k, ps, pe) == []
    decreases |files| - k
  {
    if k < |files| { NothingMet(files, k + 1, ps, pe); }
  }

  /** The loop that cuts a piece, with its skip and its early exit. */
  method PieceSegments(files: seq<FileEntry>, info: Info, index: nat) returns (segs: seq<Segment>)
    requires ValidFiles(files)
    ensures segs == Segments(files, 0, PieceStart(info, index), PieceStart(info, index) + PieceSize(info, index))
  {
    hide Overlaps, SegmentOf;
    var pieceStart := PieceStart(info, index);
    var pieceEnd := pieceStart + PieceSize(info, index);
    segs := [];
    var fileOffset := 0;
    for k := 0 to |files|
      invariant fileOffset == FileStart(files, k)
      invariant segs + Segments(files, k, pieceStart, pieceEnd) == Segments(files, 0, pieceStart, pieceEnd)
    {
      var fileEnd := fileOffset + files[k].length;
      OverlapMeans(files, k, pieceStart, pieceEnd);
      if fileEnd <= pieceStart {
        fileOffset := fileEnd;
        continue;
      }
      if fileOffset >= pieceEnd {
        NoSegments(files, k, pieceStart, pieceEnd);
        return;
      }
      var start := Max(pieceStart, fileOffset);
      var end := Min(pieceEnd, fileEnd);
      segs := segs + [Segment(files[k].path, start - fileOffset, end - start)];
      fileOffset := fileEnd;
    }
    NoSegments(files, |files|, pieceStart, pieceEnd);
  }

  lemma OverlapMeans(files: seq<FileEntry>, k: nat, ps: int, pe: int)
    requires k < |files|
    ensures Overlaps(files, k, ps, pe) <==> FileStart(files, k) + files[k].length > ps && FileStart(files, k) < pe
    ensures SegmentOf(files, k, ps, pe)
         == var start := Max(ps, FileStart(files, k));
            Segment(files[k].path, start - FileStart(files, k),
                    Min(pe, FileStart(files, k) + files[k].length) - start)
  {
  }

  lemma NoSegments(files: seq<FileEntry>, k: nat, ps: int, pe: int)
    requires ValidFiles(files) && k <= |files| && (k == |files| || FileStart(files, k) >= pe)
    ensures Segments(files, k, ps, pe) == []
  {
    if k < |files| { NothingMet(files, k, ps, pe); }
  }

  /** A segment covers the bytes of the range between two neighbouring cuts; a file that is not met
      cuts nothing off. */
  lemma {:induction false} SegmentIsCut(files: seq<FileEntry>, k: nat, ps: int, pe: int)
    requires ValidFiles(files) && k < |files| && 0 <= ps <= pe
    ensures Overlaps(files, k, ps, pe) ==>
              var seg := SegmentOf(files, k, ps, pe);
              && 0 <= seg.offset && 0 <= seg.length && seg.offset + seg.length <= files[k].length
              && seg.length == Cut(files, k + 1, ps, pe) - Cut(files, k, ps, pe)
              && FileStart(files, k) + seg.offset == ps + Cut(files, k, ps, pe)
    ensures !Overlaps(files, k, ps, pe) ==> Cut(files, k + 1, ps, pe) == Cut(files, k, ps, pe)
  {
    FileStartMonotone(files, k, k + 1);
  }

  /** Segments that stay inside their files and lie end to end in the flat stream from `from` on;
      `met` names their files, which follow one another from file `lo` on. */
  ghost predicate Tile(files: seq<FileEntry>, segs: seq<Segment>, met: seq<nat>, lo: nat, from: int)
    decreases |segs|
  {
    if segs == [] then met == []
    else
      && met != [] && lo <= met[0] < |files|
      && FitsFile(files, met[0], segs[0], from)
      && Tile(files, segs[1..], met[1..], met[0] + 1, from + segs[0].length)
  }

  /** The segment is a part of file `k`, and begins where the flat stream is at `from`. */
  ghost predicate FitsFile(files: seq<FileEntry>, k: nat, seg: Segment, from: int)
    requires k < |files|
  {
    && seg.path == files[k].path
    && 0 <= seg.offset && 0 <= seg.length && seg.offset + seg.length <= files[k].length
    && FileStart(files, k) + seg.offset == from
  }

  /** Cutting a range gives segments that tile it. */
  lemma {:induction false} SegmentsTile(files: seq<FileEntry>, k: nat, lo: nat, ps: int, pe: int)
    requires ValidFiles(files) && lo <= k <= |files| && 0 <= ps <= pe <= FileStart(files, |files|)
    ensures SumSegments(Segments(files, k, ps, pe)) == pe - ps - Cut(files, k, ps, pe)
    ensures Tile(files, Segments(files, k, ps, pe), FilesMet(files, k, ps, pe), lo, ps + Cut(files, k, ps, pe))
    decreases |files| - k
  {
    hide Overlaps, SegmentOf, Cut, FitsFile, Tile;
    if k == |files| {
      CutAtEnd(files, ps, pe);
      EmptyTile(files, lo, ps + Cut(files, k, ps, pe));
    } else {
      SegmentIsCut(files, k, ps, pe);
      if Overlaps(files, k, ps, pe) {
        SegmentFits(files, k, ps, pe);
        SegmentsTile(files, k + 1, k + 1, ps, pe);
        var seg, rest := SegmentOf(files, k, ps, pe), Segments(files, k + 1, ps, pe);
        SumSegmentsCons(seg, rest);
        TileCons(files, k, seg, rest, FilesMet(files, k + 1, ps, pe), lo, ps + Cut(files, k, ps, pe));
      } else {
        SegmentsTile(files, k + 1, lo, ps, pe);
      }
    }
  }

  lemma EmptyTile(files: seq<FileEntry>, lo: nat, from: int)
    ensures Tile(files, [], [], lo, from)
  {
  }

  lemma TileCons(files: seq<FileEntry>, k: nat, seg: Segment, rest: seq<Segment>, met: seq<nat>, lo: nat, from: int)
    requires lo <= k < |files| && FitsFile(files, k, seg, from) && Tile(files, rest, met, k + 1, from + seg.length)
    ensures Tile(files, [seg] + rest, [k] + met, lo, from)
  {
    assert ([seg] + rest)[1..] == rest && ([k] + met)[1..] == met;
  }

  lemma SegmentFits(files: seq<FileEntry>, k: nat, ps: int, pe: int)
    requires ValidFiles(files) && k < |files| && 0 <= ps <= pe && Overlaps(files, k, ps, pe)
    ensures FitsFile(files, k, SegmentOf(files, k, ps, pe), ps + Cut(files, k, ps, pe))
  {
    SegmentIsCut(files, k, ps, pe);
    PathOfSegment(files, k, ps, pe);
  }

  /** What a tiling says of each segment: byte `r` of segment `s` is the byte of the range behind all
      earlier segments, and its file holds it at the matching flat position. */
  lemma {:induction false} TileMeans(files: seq<FileEntry>, segs: seq<Segment>, met: seq<nat>, lo: nat, from: int, s: nat)
    requires Tile(files, segs, met, lo, from) && s < |segs|
    ensures s < |met| && lo <= met[s] < |files| && (s + 1 < |met| ==> met[s] < met[s + 1])
    ensures FitsFile(files, met[s], segs[s], from + SumSegments(segs[..s]))
  {
    hide FitsFile;
    if s == 0 {
      assert segs[..0] == [];
      if |met| > 1 { assert |segs| > 1 && met[1..][0] == met[1]; }
    } else {
      TileMeans(files, segs[1..], met[1..], met[0] + 1, from + segs[0].length, s - 1);
      assert segs[..s] == [segs[0]] + segs[1..][..s - 1];
      SumSegmentsCons(segs[0], segs[1..][..s - 1]);
    }
  }

  lemma PathOfSegment(files: seq<FileEntry>, k: nat, ps: int, pe: int)
    requires k < |files|
    ensures SegmentOf(files, k, ps, pe).path == files[k].path
  {
  }

  lemma CutAtEnd(files: seq<FileEntry>, ps: int, pe: int)
    requires ps <= pe <= FileStart(files, |files|)
    ensures Cut(files, |files|, ps, pe) == pe - ps
  {
  }

  lemma {:induction false} SumSegmentsCons(seg: Segment, rest: seq<Segment>)
    ensures SumSegments([seg] + rest) == seg.length + SumSegments(rest)
  {
    var all := [seg] + rest;
    if rest == [] {
      assert all[..0] == [];
    } else {
      SumSegmentsCons(seg, rest[..|rest| - 1]);
      assert all[..|all| - 1] == [seg] + rest[..|rest| - 1];
    }
  }

  /** A flat position lies in exactly one file. */
  lemma {:induction false} FileOf(files: seq<FileEntry>, q: int) returns (k: nat)
    requires ValidFiles(files) && 0 <= q < FileStart(files, |files|)
    ensures k < |files| && FileStart(files, k) <= q < FileStart(files, k + 1)
    ensures forall j :: 0 <= j < |files| && FileStart(files, j) <= q < FileStart(files, j + 1) ==> j == k
  {
    k := |files| - 1;
    while FileStart(files, k) > q
      invariant k < |files| && q < FileStart(files, k + 1)
      decreases k
    {
      k := k - 1;
    }
    forall j | 0 <= j < |files| && FileStart(files, j) <= q < FileStart(files, j + 1) ensures j == k {
      if j < k { FileStartMonotone(files, j + 1, k); }
      if k < j { FileStartMonotone(files, k + 1, j); }
    }
  }

  // ---- Writing ----

  /** os.File.WriteAt: a gap before the data is filled with zeros. */
  function WriteAt(was: Bytes, offset: nat, data: Bytes): (r: Bytes)
    ensures |r| == if data == [] then |was| else Max(|was|, offset + |data|)
    ensures forall x :: 0 <= x < |r| ==>
              r[x] == if offset <= x < offset + |data| then data[x - offset] else if x < |was| then was[x] else 0
  {
    if data == [] then was
    else
      seq(Max(|was|, offset + |data|), x requires 0 <= x < Max(|was|, offset + |data|) =>
            if offset <= x < offset + |data| then data[x - offset] else if x < |was| then was[x] else 0)
  }

  function Contents(disk: Disk, path: Bytes): Bytes { if path in disk then disk[path] else [] }

  predicate Fits(segs: seq<Segment>, data: Bytes)
    decreases |segs|
  {
    if segs == [] then data == []
    else 0 <= segs[0].offset && 0 <= segs[0].length <= |data| && Fits(segs[1..], data[segs[0].length..])
  }

  /** Opening, creating and writing the segments one after the other. */
  function WriteSegments(disk: Disk, segs: seq<Segment>, data: Bytes): Disk
    requires Fits(segs, data)
    decreases |segs|
  {
    if segs == [] then disk
    else
      var seg := segs[0];
      WriteSegments(disk[seg.path := WriteAt(Contents(disk, seg.path), seg.offset, data[..seg.length])],
                    segs[1..], data[seg.length..])
  }

  /** The bytes of the range that go to file `k`. */
  function Part(files: seq<FileEntry>, k: nat, ps: int, pe: int, data: Bytes): Bytes
    requires ValidFiles(files) && k < |files| && 0 <= ps <= pe && |data| == pe - ps
  {
    FileStartMonotone(files, k, k + 1);
    data[Cut(files, k, ps, pe)..Cut(files, k + 1, ps, pe)]
  }

  /** Where in file `k` they go. */
  function PartOffset(files: seq<FileEntry>, k: nat, ps: int): nat
    requires k < |files|
  {
    Max(ps, FileStart(files, k)) - FileStart(files, k)
  }

  function Value(was: Option<Bytes>): Bytes { if was.Some? then was.value else [] }

  /** What file `k` holds after the range [ps, pe) is written with `data`; None while it is absent. */
  function FileAfter(was: Option<Bytes>, files: seq<FileEntry>, k: nat, ps: int, pe: int, data: Bytes): Option<Bytes>
    requires ValidFiles(files) && k < |files| && 0 <= ps <= pe && |data| == pe - ps
  {
    if !Overlaps(files, k, ps, pe) then was
    else Some(WriteAt(Value(was), PartOffset(files, k, ps), Part(files, k, ps, pe, data)))
  }

  function Lookup(disk: Disk, path: Bytes): Option<Bytes> { if path in disk then Some(disk[path]) else None }

  ghost function PathSet(files: seq<FileEntry>, k: nat): set<Bytes> { set j | k <= j < |files| :: files[j].path }

  /** `after` is what writing the range does to the files from `k` on, each on its own; everything
      else is as it was. */
  ghost predicate Effect(disk: Disk, after: Disk, files: seq<FileEntry>, k: nat, ps: int, pe: int, data: Bytes)
    requires ValidFiles(files) && k <= |files| && 0 <= ps <= pe && |data| == pe - ps
  {
    && (forall j :: k <= j < |files| ==>
          Lookup(after, files[j].path) == FileAfter(Lookup(disk, files[j].path), files, j, ps, pe, data))
    && (forall p :: p !in PathSet(files, k) ==> Lookup(after, p) == Lookup(disk, p))
  }

  /** The writing loop in closed form. */
  lemma {:induction false} WriteEffect(disk: Disk, files: seq<FileEntry>, k: nat, ps: int, pe: int, data: Bytes)
    requires ValidFiles(files) && k <= |files| && 0 <= ps <= pe <= FileStart(files, |files|) && |data| == pe - ps
    ensures Fits(Segments(files, k, ps, pe), data[Cut(files, k, ps, pe)..])
    ensures Effect(disk, WriteSegments(disk, Segments(files, k, ps, pe), data[Cut(files, k, ps, pe)..]), files, k, ps, pe, data)
    decreases |files| - k
  {
    hide Overlaps, SegmentOf, Cut, WriteAt, Effect, FileAfter;
    var c := Cut(files, k, ps, pe);
    if k == |files| {
      CutAtEnd(files, ps, pe);
      NoSegments(files, k, ps, pe);
      assert data[c..] == [];
      EffectOfNothing(disk, files, ps, pe, data);
    } else {
      SegmentIsCut(files, k, ps, pe);
      PathOfSegment(files, k, ps, pe);
      var d := Cut(files, k + 1, ps, pe);
      var rest := Segments(files, k + 1, ps, pe);
      if Overlaps(files, k, ps, pe) {
        var seg := SegmentOf(files, k, ps, pe);
        var segs := [seg] + rest;
        assert Segments(files, k, ps, pe) == segs;
        assert segs[1..] == rest && data[c..][seg.length..] == data[d..] && data[c..][..seg.length] == data[c..d];
        var next := disk[seg.path := WriteAt(Contents(disk, seg.path), seg.offset, data[c..d])];
        FileAfterMeans(disk, files, k, ps, pe, data);
        WriteEffect(next, files, k + 1, ps, pe, data);
        EffectStep(disk, next, WriteSegments(next, rest, data[d..]), files, k, ps, pe, data);
      } else {
        assert Segments(files, k, ps, pe) == rest;
        FileAfterMeans(disk, files, k, ps, pe, data);
        WriteEffect(disk, files, k + 1, ps, pe, data);
        EffectStep(disk, disk, WriteSegments(disk, rest, data[d..]), files, k, ps, pe, data);
      }
    }
  }

  lemma EffectOfNothing(disk: Disk, files: seq<FileEntry>, ps: int, pe: int, data: Bytes)
    requires ValidFiles(files) && 0 <= ps <= pe && |data| == pe - ps
    ensures Effect(disk, disk, files, |files|, ps, pe, data)
  {
  }

  lemma {:induction false} EffectStep(disk: Disk, next: Disk, after: Disk, files: seq<FileEntry>, k: nat, ps: int, pe: int, data: Bytes)
    requires ValidFiles(files) && k < |files| && 0 <= ps <= pe && |data| == pe - ps
    requires Lookup(next, files[k].path) == FileAfter(Lookup(disk, files[k].path), files, k, ps, pe, data)
    requires forall p :: p != files[k].path ==> Lookup(next, p) == Lookup(disk, p)
    requires Effect(next, after, files, k + 1, ps, pe, data)
    ensures Effect(disk, after, files, k, ps, pe, data)
  {
    hide FileAfter, Lookup;
    var path := files[k].path;
    assert path !in PathSet(files, k + 1);
    assert PathSet(files, k) == PathSet(files, k + 1) + {path};
    forall j | k <= j < |files|
      ensures Lookup(after, files[j].path) == FileAfter(Lookup(disk, files[j].path), files, j, ps, pe, data)
    {
      if j > k { assert files[j].path != path; }
    }
  }

  lemma FileAfterMeans(disk: Disk, files: seq<FileEntry>, k: nat, ps: int, pe: int, data: Bytes)
    requires ValidFiles(files) && k < |files| && 0 <= ps <= pe && |data| == pe - ps
    ensures 0 <= Cut(files, k, ps, pe) <= Cut(files, k + 1, ps, pe) <= |data|
    ensures Overlaps(files, k, ps, pe) ==> SegmentOf(files, k, ps, pe).offset >= 0
    ensures FileAfter(Lookup(disk, files[k].path), files, k, ps, pe, data)
         == if Overlaps(files, k, ps, pe)
            then Some(WriteAt(Contents(disk, files[k].path), SegmentOf(files, k, ps, pe).offset,
                              data[Cut(files, k, ps, pe)..Cut(files, k + 1, ps, pe)]))
            else Lookup(disk, files[k].path)
  {
    hide WriteAt;
    FileStartMonotone(files, k, k + 1);
    SegmentIsCut(files, k, ps, pe);
  }

  lemma NextStart(files: seq<FileEntry>, k: nat)
    requires k < |files|
    ensures FileStart(files, k + 1) == FileStart(files, k) + files[k].length
  {
  }

  /** A part is what the range and the file have in common, taken from the bytes of the range. */
  lemma PartBounds(files: seq<FileEntry>, k: nat, ps: int, pe: int, data: Bytes)
    requires ValidFiles(files) && k < |files| && 0 <= ps <= pe && |data| == pe - ps && Overlaps(files, k, ps, pe)
    ensures var offset, part, fs := PartOffset(files, k, ps), Part(files, k, ps, pe, data), FileStart(files, k);
            && fs + offset == Max(ps, fs)
            && fs + offset + |part| == Min(pe, fs + files[k].length)
            && part == data[fs + offset - ps..fs + offset + |part| - ps]
  {
    hide FileStart;
    NextStart(files, k);
    FileStartMonotone(files, k, k + 1);
    assert Cut(files, k, ps, pe) == Max(ps, FileStart(files, k)) - ps;
    assert Cut(files, k + 1, ps, pe) == Min(pe, FileStart(files, k + 1)) - ps;
  }
}
