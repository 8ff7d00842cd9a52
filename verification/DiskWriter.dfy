/** The writer as it runs: a cache of open files in front of a file system whose operations can fail. */
module DiskWriter {
  import opened Metainfo
  import opened Storage
  import opened PieceWriter

  class FileWriter {
    const info: Info
    const files: seq<FileEntry>
    /** The file system. */
    var disk: Disk
    /** How many more opens and writes succeed. */
    var budget: nat
    /** The files that are open. */
    var handles: set<Bytes>

    ghost predicate Valid() reads this { handles <= disk.Keys }

    constructor (info: Info, join: seq<Bytes> -> Bytes, disk: Disk, budget: nat)
      ensures Valid() && this.info == info && files == FileList(info, join)
      ensures this.disk == disk && this.budget == budget && handles == {}
    {
      this.info, this.disk, this.budget, handles := info, disk, budget, {};
      var entries: seq<FileEntry> := [];
      if info.length > 0 {
        entries := [FileEntry(join([info.name]), info.length)];
      } else {
        for i := 0 to |info.files|
          invariant |entries| == i
          invariant forall k :: 0 <= k < i ==>
                      entries[k] == FileEntry(join([info.name] + info.files[k].path), info.files[k].length)
        {
          entries := entries + [FileEntry(join([info.name] + info.files[i].path), info.files[i].length)];
        }
      }
      files := entries;
    }

    /** Opens the file, creating it if needed, unless it is open already. */
    method OpenFile(path: Bytes) returns (ok: bool)
      requires Valid()
      modifies this
      ensures Valid()
      ensures ok ==> path in handles && disk == old(disk)[path := Contents(old(disk), path)]
      ensures !ok ==> disk == old(disk)
    {
      if path in handles { return true; }
      if budget == 0 { return false; }
      budget := budget - 1;
      if path !in disk { disk := disk[path := []]; }
      handles := handles + {path};
      ok := true;
    }

    /** A write that fails may still have written a part of the data, of `n` bytes. */
    method WriteFileAt(path: Bytes, offset: nat, data: Bytes) returns (ok: bool, ghost n: nat)
      requires Valid() && path in handles
      modifies this
      ensures Valid() && handles == old(handles)
      ensures n <= |data| && (ok ==> n == |data|)
      ensures disk == old(disk)[path := WriteAt(old(disk)[path], offset, data[..n])]
    {
      if budget == 0 {
        var part :| 0 <= part <= |data|;
        disk := disk[path := WriteAt(disk[path], offset, data[..part])];
        return false, part;
      }
      budget := budget - 1;
      assert data[..|data|] == data;
      disk := disk[path := WriteAt(disk[path], offset, data)];
      ok, n := true, |data|;
    }

    /** On success the piece is written. However the call ends, exactly the first `reach` bytes of the piece
        are, and nothing else has changed. */
    method WritePiece(index: nat, data: Bytes) returns (ok: bool, ghost reach: nat)
      requires Valid() && Layout(info, files) && index < NumPieces(info) && |data| == PieceSize(info, index)
      modifies this
      ensures Valid()
      ensures ok ==> disk == WritePieceOn(old(disk), files, info, index, data)
      ensures reach <= |data| && (ok ==> reach == |data|)
      ensures Torn(old(disk), disk, files, PieceStart(info, index), data, reach)
    {
      hide WriteSegments, Fits, PathSet, PieceStart, PieceSize, Torn, Tile, FitsFile;
      var segments := PieceSegments(files, info, index);
      ghost var ps := PieceStart(info, index);
      PieceSegmentsFit(disk, files, info, index, data, segments);
      ghost var met := PieceTiles(files, info, index, segments);
      hide Segments, WritePieceOn;
      var offset := 0;
      ghost var lo := 0;
      assert data[0..] == data && segments[0..] == segments && met[0..] == met;
      TornNothing(disk, files, ps, data);
      for k := 0 to |segments|
        invariant Valid() && 0 <= offset <= |data| && |met| == |segments|
        invariant Fits(segments[k..], data[offset..])
        invariant WriteSegments(disk, segments[k..], data[offset..]) == WriteSegments(old(disk), segments, data)
        invariant Tile(files, segments[k..], met[k..], lo, ps + offset)
        invariant Torn(old(disk), disk, files, ps, data, offset)
      {
        var seg := segments[k];
        SegmentTurn(disk, segments, data, k, offset);
        TileTurn(files, segments, met, k, lo, ps + offset);
        ghost var before := disk;
        ghost var n: nat;
        ok, n := WriteSegment(seg, data[offset..offset + seg.length]);
        assert data[offset..offset + seg.length][..n] == data[offset..offset + n];
        TornMore(old(disk), before, disk, files, met[k], seg, ps, data, offset, n);
        if !ok { return false, offset + n; }
        offset, lo := offset + seg.length, met[k] + 1;
      }
      ok, reach := true, |data|;
      NoSegmentsLeft(disk, segments, data[offset..]);
    }

    method WriteSegment(seg: Segment, part: Bytes) returns (ok: bool, ghost n: nat)
      requires Valid() && seg.offset >= 0
      modifies this
      ensures Valid()
      ensures n <= |part| && (ok ==> n == |part|)
      ensures Contents(disk, seg.path) == WriteAt(Contents(old(disk), seg.path), seg.offset, part[..n])
      ensures ok ==> disk == old(disk)[seg.path := WriteAt(Contents(old(disk), seg.path), seg.offset, part)]
      ensures forall p :: p != seg.path ==> Lookup(disk, p) == Lookup(old(disk), p)
    {
      ok := OpenFile(seg.path);
      if !ok { return false, 0; }
      ok, n := WriteFileAt(seg.path, seg.offset, part);
      assert part[..|part|] == part;
    }
  }

  /** The files of a piece's segments. */
  lemma PieceTiles(files: seq<FileEntry>, info: Info, index: nat, segs: seq<Segment>) returns (met: seq<nat>)
    requires Layout(info, files) && index < NumPieces(info)
    requires segs == Segments(files, 0, PieceStart(info, index), PieceStart(info, index) + PieceSize(info, index))
    ensures |met| == |segs| && Tile(files, segs, met, 0, PieceStart(info, index))
  {
    hide PieceStart, PieceSize, Segments, FilesMet, Tile;
    PiecesAbut(info, index);
    var ps, pe := PieceStart(info, index), PieceStart(info, index) + PieceSize(info, index);
    SegmentsTile(files, 0, 0, ps, pe);
    met := FilesMet(files, 0, ps, pe);
    TileLength(files, segs, met, 0, ps);
  }

  lemma {:induction false} TileLength(files: seq<FileEntry>, segs: seq<Segment>, met: seq<nat>, lo: nat, from: int)
    requires Tile(files, segs, met, lo, from)
    ensures |met| == |segs|
    decreases |segs|
  {
    hide FitsFile;
    if segs != [] { TileLength(files, segs[1..], met[1..], met[0] + 1, from + segs[0].length); }
  }

  lemma TileTurn(files: seq<FileEntry>, segs: seq<Segment>, met: seq<nat>, k: nat, lo: nat, from: int)
    requires k < |segs| == |met| && Tile(files, segs[k..], met[k..], lo, from)
    ensures met[k] < |files| && FitsFile(files, met[k], segs[k], from)
    ensures Tile(files, segs[k + 1..], met[k + 1..], met[k] + 1, from + segs[k].length)
  {
    hide FitsFile;
    assert segs[k..][1..] == segs[k + 1..] && met[k..][1..] == met[k + 1..];
  }

  lemma PieceSegmentsFit(disk: Disk, files: seq<FileEntry>, info: Info, index: nat, data: Bytes, segs: seq<Segment>)
    requires Layout(info, files) && index < NumPieces(info) && |data| == PieceSize(info, index)
    requires segs == Segments(files, 0, PieceStart(info, index), PieceStart(info, index) + PieceSize(info, index))
    ensures Fits(segs, data) && WritePieceOn(disk, files, info, index, data) == WriteSegments(disk, segs, data)
    ensures forall s :: 0 <= s < |segs| ==> segs[s].path in PathSet(files, 0)
  {
    hide PieceStart, PieceSize, Segments, WriteSegments, Fits, Effect, PathSet;
    PiecesAbut(info, index);
    RangeFits(disk, files, PieceStart(info, index), PieceStart(info, index) + PieceSize(info, index), data);
    SegmentPaths(files, 0, PieceStart(info, index), PieceStart(info, index) + PieceSize(info, index));
  }

  lemma SegmentTurn(disk: Disk, segs: seq<Segment>, data: Bytes, k: nat, offset: nat)
    requires k < |segs| && offset <= |data| && Fits(segs[k..], data[offset..])
    ensures 0 <= segs[k].offset && 0 <= segs[k].length && offset + segs[k].length <= |data|
    ensures Fits(segs[k + 1..], data[offset + segs[k].length..])
    ensures WriteSegments(disk, segs[k..], data[offset..])
         == WriteSegments(disk[segs[k].path := WriteAt(Contents(disk, segs[k].path), segs[k].offset,
                                                       data[offset..offset + segs[k].length])],
                          segs[k + 1..], data[offset + segs[k].length..])
  {
    hide WriteAt;
    var n := segs[k].length;
    assert segs[k..][1..] == segs[k + 1..];
    assert data[offset..][n..] == data[offset + n..];
    assert data[offset..][..n] == data[offset..offset + n];
  }

  lemma NoSegmentsLeft(disk: Disk, segs: seq<Segment>, data: Bytes)
    requires Fits(segs[|segs|..], data)
    ensures WriteSegments(disk, segs[|segs|..], data) == disk && data == []
  {
  }

  lemma {:induction false} SegmentPaths(files: seq<FileEntry>, k: nat, ps: int, pe: int)
    requires k <= |files|
    ensures forall s :: 0 <= s < |Segments(files, k, ps, pe)| ==> Segments(files, k, ps, pe)[s].path in PathSet(files, k)
    decreases |files| - k
  {
    hide Overlaps;
    if k < |files| {
      SegmentPaths(files, k + 1, ps, pe);
      PathOfSegment(files, k, ps, pe);
      assert forall p :: p in PathSet(files, k + 1) ==> p in PathSet(files, k);
      assert files[k].path in PathSet(files, k);
    }
  }
}
