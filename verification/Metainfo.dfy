/** The info dictionary of a torrent: its shape, the sizes of its pieces, and parsing. */
module Metainfo {
  import opened Prelude
  import opened Bencode
  import BencodeLaws
  import BencodeCodec

  datatype File = File(length: int, path: seq<Bytes>)

  /** `length` is 0 for a multi-file torrent; `pieces` holds one 20-byte hash a piece. */
  datatype Info = Info(name: Bytes, pieceLength: int, pieces: seq<Bytes>, length: int, files: seq<File>)

  datatype ParseError = InvalidMetadata | HashMismatch

  const HASH_SIZE := 20

  // ---- Sizes ----

  function SumLengths(files: seq<File>): int {
    if files == [] then 0 else SumLengths(files[..|files| - 1]) + files[|files| - 1].length
  }

  function Total(info: Info): int {
    if info.length > 0 then info.length else SumLengths(info.files)
  }

  method TotalLength(info: Info) returns (total: int)
    ensures total == Total(info)
  {
    if info.length > 0 { return info.length; }
    total := 0;
    for i := 0 to |info.files|
      invariant total == SumLengths(info.files[..i])
    {
      total := total + info.files[i].length;
      assert info.files[..i + 1][..i] == info.files[..i];
    }
    assert info.files[..|info.files|] == info.files;
  }

  function NumPieces(info: Info): nat { |info.pieces| }

  function PieceStart(info: Info, index: nat): int { index * info.pieceLength }

  function PieceSize(info: Info, index: nat): int {
    var remaining := Total(info) - PieceStart(info, index);
    if remaining < info.pieceLength then remaining else info.pieceLength
  }

  /** What the parser does not check and the download relies on: no negative length, and as many
      hashes as pieces, of which there is at least one. */
  ghost predicate Consistent(info: Info) {
    && 0 < info.pieceLength < UINT32_RANGE
    && (forall i :: 0 <= i < |info.files| ==> 0 <= info.files[i].length)
    && 1 <= NumPieces(info) < UINT32_RANGE
    && PieceStart(info, NumPieces(info) - 1) < Total(info) <= PieceStart(info, NumPieces(info))
  }

  lemma {:induction false} PieceStartMonotone(info: Info, i: nat, j: nat)
    requires info.pieceLength > 0 && i <= j
    ensures PieceStart(info, j) == PieceStart(info, i) + (j - i) * info.pieceLength
    ensures PieceStart(info, i) <= PieceStart(info, j)
    ensures i < j ==> PieceStart(info, i) + info.pieceLength <= PieceStart(info, j)
  {
    Distribute(j, i, info.pieceLength);
    AtLeastOne(j - i, info.pieceLength);
  }

  lemma Distribute(a: int, b: int, c: int)
    ensures (a - b) * c == a * c - b * c
  {
  }

  lemma AtLeastOne(d: nat, c: int)
    requires c > 0
    ensures d * c >= 0 && (d > 0 ==> d * c >= c)
  {
  }

  /** Pieces follow one another without gap or overlap, none is empty, and the last ends where the
      content ends. */
  lemma {:induction false} PiecesAbut(info: Info, index: nat)
    requires Consistent(info) && index < NumPieces(info)
    ensures 0 < PieceSize(info, index) <= info.pieceLength
    ensures index + 1 < NumPieces(info) ==>
              PieceStart(info, index) + PieceSize(info, index) == PieceStart(info, index + 1)
    ensures index + 1 == NumPieces(info) ==>
              PieceStart(info, index) + PieceSize(info, index) == Total(info)
    ensures 0 <= PieceStart(info, index) && PieceStart(info, index) + PieceSize(info, index) <= Total(info)
  {
    PieceStartMonotone(info, 0, index);
    PieceStartMonotone(info, index, index + 1);
    PieceStartMonotone(info, index, NumPieces(info) - 1);
    if index + 1 < NumPieces(info) { PieceStartMonotone(info, index + 1, NumPieces(info) - 1); }
  }

  function SumPieceSizes(info: Info, count: nat): int {
    if count == 0 then 0 else SumPieceSizes(info, count - 1) + PieceSize(info, count - 1)
  }

  /** The sizes of all pieces add up to the content. */
  lemma {:induction false} PieceSizesSum(info: Info, count: nat)
    requires Consistent(info) && count <= NumPieces(info)
    ensures SumPieceSizes(info, count) == if count == NumPieces(info) then Total(info) else PieceStart(info, count)
  {
    if count > 0 {
      PieceSizesSum(info, count - 1);
      PiecesAbut(info, count - 1);
    }
  }

  /** Every byte of the content lies in exactly one piece. */
  lemma {:induction false} PieceOf(info: Info, q: int) returns (index: nat)
    requires Consistent(info) && 0 <= q < Total(info)
    ensures index < NumPieces(info)
    ensures PieceStart(info, index) <= q < PieceStart(info, index) + PieceSize(info, index)
  {
    index := NumPieces(info) - 1;
    while PieceStart(info, index) > q
      invariant index < NumPieces(info)
      invariant q < PieceStart(info, index) + PieceSize(info, index)
    {
      PiecesAbut(info, index - 1);
      index := index - 1;
    }
    PiecesAbut(info, index);
  }

  // ---- Parsing ----

  const NAME: Bytes := [110, 97, 109, 101]
  const PIECE_LENGTH: Bytes := [112, 105, 101, 99, 101, 32, 108, 101, 110, 103, 116, 104]
  const PIECES: Bytes := [112, 105, 101, 99, 101, 115]
  const LENGTH: Bytes := [108, 101, 110, 103, 116, 104]
  const FILES: Bytes := [102, 105, 108, 101, 115]
  const PATH: Bytes := [112, 97, 116, 104]

  /** A comma-ok lookup of a string, an int64 or a list. */
  function GetStr(m: map<Bytes, Any>, key: Bytes): Option<Bytes> {
    if key in m && m[key].Str? then Some(m[key].s) else None
  }

  function GetInt(m: map<Bytes, Any>, key: Bytes): Option<int> {
    if key in m && m[key].Int64? then Some(m[key].n64) else None
  }

  function GetList(m: map<Bytes, Any>, key: Bytes): Option<seq<Any>> {
    if key in m && m[key].List? then Some(m[key].items) else None
  }

  function SplitHashes(raw: Bytes): (r: seq<Bytes>)
    requires |raw| % HASH_SIZE == 0
    ensures |r| == |raw| / HASH_SIZE && forall i :: 0 <= i < |r| ==> |r[i]| == HASH_SIZE
  {
    seq(|raw| / HASH_SIZE, i requires 0 <= i < |raw| / HASH_SIZE => raw[i * HASH_SIZE..(i + 1) * HASH_SIZE])
  }

  /** The string elements of a path; other elements are passed over. */
  function StringsOf(items: seq<Any>): seq<Bytes> {
    if items == [] then []
    else StringsOf(items[..|items| - 1]) + if items[|items| - 1].Str? then [items[|items| - 1].s] else []
  }

  function ParseFile(v: Any): Option<File> {
    if !v.Dict? then None
    else match (GetInt(v.entries, LENGTH), GetList(v.entries, PATH))
      case (Some(length), Some(items)) =>
        if StringsOf(items) == [] then None else Some(File(length, StringsOf(items)))
      case _ => None
  }

  function ParseFiles(items: seq<Any>): Option<seq<File>> {
    if items == [] then Some([])
    else match (ParseFiles(items[..|items| - 1]), ParseFile(items[|items| - 1]))
      case (Some(files), Some(f)) => Some(files + [f])
      case _ => None
  }

  /** The meaning of a decoded info dictionary. */
  function ParseValue(v: Any): Result<Info, ParseError> {
    if !v.Dict? then Err(InvalidMetadata)
    else
      match (GetStr(v.entries, NAME), GetInt(v.entries, PIECE_LENGTH), GetStr(v.entries, PIECES))
      case (Some(name), Some(pl), Some(raw)) =>
        if name == [] || pl <= 0 || |raw| % HASH_SIZE != 0 then Err(InvalidMetadata)
        else
          var info := Info(name, pl, SplitHashes(raw), 0, []);
          (match GetInt(v.entries, LENGTH)
           case Some(length) => Ok(info.(length := length))
           case None =>
             match GetList(v.entries, FILES)
             case None => Err(InvalidMetadata)
             case Some(items) =>
               match ParseFiles(items)
               case None => Err(InvalidMetadata)
               case Some(files) => if files == [] then Err(InvalidMetadata) else Ok(info.(files := files)))
      case _ => Err(InvalidMetadata)
  }

  function ParseRaw(raw: Bytes): Result<Info, ParseError> {
    match DecodeValue(raw)
    case Err(_) => Err(InvalidMetadata)
    case Ok((v, _)) => ParseValue(v)
  }

  method ParseUnverified(raw: Bytes) returns (r: Result<Info, ParseError>)
    ensures r == ParseRaw(raw)
  {
    hide DecodeValue;
    var decoded := BencodeCodec.DecodeBytes(raw);
    if decoded.Err? || !decoded.value.0.Dict? { return Err(InvalidMetadata); }
    var dict := decoded.value.0.entries;
    var name := GetStr(dict, NAME);
    if name.None? || name.value == [] { return Err(InvalidMetadata); }
    var pl := GetInt(dict, PIECE_LENGTH);
    if pl.None? || pl.value <= 0 { return Err(InvalidMetadata); }
    var piecesRaw := GetStr(dict, PIECES);
    if piecesRaw.None? || |piecesRaw.value| % HASH_SIZE != 0 { return Err(InvalidMetadata); }
    var pieces: seq<Bytes> := [];
    for i := 0 to |piecesRaw.value| / HASH_SIZE
      invariant |pieces| == i
      invariant forall j :: 0 <= j < i ==> pieces[j] == piecesRaw.value[j * HASH_SIZE..(j + 1) * HASH_SIZE]
    {
      pieces := pieces + [piecesRaw.value[i * HASH_SIZE..(i + 1) * HASH_SIZE]];
    }
    assert pieces == SplitHashes(piecesRaw.value);
    var info := Info(name.value, pl.value, pieces, 0, []);
    var length := GetInt(dict, LENGTH);
    if length.Some? { return Ok(info.(length := length.value)); }
    var items := GetList(dict, FILES);
    if items.None? { return Err(InvalidMetadata); }
    var files := ParseFileEntries(items.value);
    if files.None? || files.value == [] { return Err(InvalidMetadata); }
    r := Ok(info.(files := files.value));
  }

  method ParseFileEntries(items: seq<Any>) returns (r: Option<seq<File>>)
    ensures r == ParseFiles(items)
  {
    var files: seq<File> := [];
    for i := 0 to |items|
      invariant ParseFiles(items[..i]) == Some(files)
    {
      assert items[..i + 1][..i] == items[..i];
      if !items[i].Dict? { FilesFail(items, i + 1); return None; }
      var fl := GetInt(items[i].entries, LENGTH);
      if fl.None? { FilesFail(items, i + 1); return None; }
      var pathList := GetList(items[i].entries, PATH);
      if pathList.None? || pathList.value == [] { FilesFail(items, i + 1); return None; }
      var path: seq<Bytes> := [];
      for j := 0 to |pathList.value|
        invariant path == StringsOf(pathList.value[..j])
      {
        assert pathList.value[..j + 1][..j] == pathList.value[..j];
        if pathList.value[j].Str? { path := path + [pathList.value[j].s]; }
      }
      assert pathList.value[..|pathList.value|] == pathList.value;
      if path == [] { FilesFail(items, i + 1); return None; }
      files := files + [File(fl.value, path)];
    }
    assert items[..|items|] == items;
    r := Some(files);
  }

  /** One bad entry spoils the list. */
  lemma {:induction false} FilesFail(items: seq<Any>, i: nat)
    requires i <= |items| && ParseFiles(items[..i]) == None
    ensures ParseFiles(items) == None
    decreases |items| - i
  {
    if i < |items| {
      assert items[..i + 1][..i] == items[..i];
      FilesFail(items, i + 1);
    } else {
      assert items[..i] == items;
    }
  }

  /** metainfo.Parse: the hash of the raw bytes is checked first. */
  method Parse(raw: Bytes, sha1: Bytes -> Bytes, expectedHash: Bytes) returns (r: Result<Info, ParseError>)
    ensures r == if sha1(raw) != expectedHash then Err(HashMismatch) else ParseRaw(raw)
  {
    if sha1(raw) != expectedHash { return Err(HashMismatch); }
    r := ParseUnverified(raw);
  }

  // ---- Round trip ----

  function Concat(parts: seq<Bytes>): Bytes {
    if parts == [] then [] else Concat(parts[..|parts| - 1]) + parts[|parts| - 1]
  }

  function PathItems(path: seq<Bytes>): seq<Any> { seq(|path|, i requires 0 <= i < |path| => Str(path[i])) }

  function FileValue(f: File): Any {
    Dict(map[LENGTH := Int64(f.length), PATH := List(PathItems(f.path))])
  }

  function FileValues(files: seq<File>): seq<Any> {
    seq(|files|, i requires 0 <= i < |files| => FileValue(files[i]))
  }

  /** The info dictionary that a torrent's creator publishes. */
  function InfoValue(info: Info): Any {
    var common := map[NAME := Str(info.name), PIECE_LENGTH := Int64(info.pieceLength), PIECES := Str(Concat(info.pieces))];
    Dict(if info.files == [] then common[LENGTH := Int64(info.length)]
         else common[FILES := List(FileValues(info.files))])
  }

  /** A single-file info has a length and no files, a multi-file one files and no length. */
  ghost predicate WellFormed(info: Info) {
    && info.name != [] && 0 < info.pieceLength
    && (forall i :: 0 <= i < |info.pieces| ==> |info.pieces[i]| == HASH_SIZE)
    && (info.files != [] ==> info.length == 0)
    && (forall i :: 0 <= i < |info.files| ==> info.files[i].path != [])
    && Representable(InfoValue(info))
  }

  /** Publishing an info and parsing it back gives the same info, with all its hashes in order,
      whatever follows it. */
  lemma {:induction false} InfoRoundTrip(info: Info, r: Bytes)
    requires WellFormed(info)
    ensures Encodable(InfoValue(info))
    ensures ParseRaw(Render(InfoValue(info)) + r) == Ok(info)
  {
    hide DecodeValue, Render, Representable;
    var v := InfoValue(info);
    InfoValueIsPlain(info);
    BencodeLaws.RoundTrip(v, r);
    InfoValueParses(info);
  }

  lemma {:induction false} InfoValueParses(info: Info)
    requires WellFormed(info)
    ensures ParseValue(InfoValue(info)) == Ok(info)
  {
    hide ParseFiles, FileValue, SplitHashes, Representable;
    KeysDiffer();
    ConcatSplits(info.pieces);
    FilesRoundTrip(info.files);
  }

  lemma KeysDiffer()
    ensures LENGTH != PATH && LENGTH != FILES && LENGTH != NAME && LENGTH != PIECES && LENGTH != PIECE_LENGTH
    ensures NAME != PIECES && NAME != PIECE_LENGTH && PIECES != PIECE_LENGTH
    ensures FILES != NAME && FILES != PIECES && FILES != PIECE_LENGTH
  {
    assert NAME[0] == 110 && LENGTH[0] == 108 && FILES[0] == 102 && PIECES[0] == 112;
    assert |PATH| == 4 && |LENGTH| == 6;
  }

  lemma {:induction false} InfoValueIsPlain(info: Info)
    ensures Encodable(InfoValue(info)) && Normalise(InfoValue(info)) == InfoValue(info)
  {
    var v := InfoValue(info);
    if info.files != [] {
      var items := v.entries[FILES].items;
      forall i | 0 <= i < |items| ensures Encodable(items[i]) && Normalise(items[i]) == items[i] {
        FileValueIsPlain(info.files[i]);
      }
      assert Normalise(v.entries[FILES]).items == items;
    }
    assert forall k :: k in v.entries ==> Encodable(v.entries[k]) && Normalise(v.entries[k]) == v.entries[k];
    assert Normalise(v).entries == v.entries;
  }

  lemma {:induction false} FileValueIsPlain(f: File)
    ensures Encodable(FileValue(f)) && Normalise(FileValue(f)) == FileValue(f)
  {
    var v := FileValue(f);
    assert Normalise(v.entries[PATH]).items == v.entries[PATH].items;
    assert forall k :: k in v.entries ==> Encodable(v.entries[k]) && Normalise(v.entries[k]) == v.entries[k];
    assert Normalise(v).entries == v.entries;
  }

  lemma {:induction false} ConcatSplits(parts: seq<Bytes>)
    requires forall i :: 0 <= i < |parts| ==> |parts[i]| == HASH_SIZE
    ensures |Concat(parts)| == HASH_SIZE * |parts|
    ensures SplitHashes(Concat(parts)) == parts
  {
    if parts != [] {
      var front := parts[..|parts| - 1];
      ConcatSplits(front);
      var all := Concat(parts);
      forall i | 0 <= i < |parts| ensures all[i * HASH_SIZE..(i + 1) * HASH_SIZE] == parts[i] {
        if i < |front| {
          assert SplitHashes(Concat(front))[i] == front[i];
          assert all[i * HASH_SIZE..(i + 1) * HASH_SIZE] == Concat(front)[i * HASH_SIZE..(i + 1) * HASH_SIZE];
        }
      }
    }
  }

  lemma {:induction false} FilesRoundTrip(files: seq<File>)
    requires forall i :: 0 <= i < |files| ==> files[i].path != []
    ensures ParseFiles(FileValues(files)) == Some(files)
  {
    if files != [] {
      var front := files[..|files| - 1];
      FilesRoundTrip(front);
      assert FileValues(files)[..|files| - 1] == FileValues(front);
      FileRoundTrip(files[|files| - 1]);
      assert files == front + [files[|files| - 1]];
    }
  }

  lemma {:induction false} FileRoundTrip(f: File)
    requires f.path != []
    ensures ParseFile(FileValue(f)) == Some(f)
  {
    KeysDiffer();
    StringsRoundTrip(f.path);
  }

  lemma {:induction false} StringsRoundTrip(path: seq<Bytes>)
    ensures StringsOf(PathItems(path)) == path
  {
    if path != [] {
      var front := path[..|path| - 1];
      StringsRoundTrip(front);
      assert PathItems(path)[..|path| - 1] == PathItems(front);
    }
  }

  // ---- What the parser accepts ----

  lemma KeysSpell()
    ensures NAME == Chars("name") && PIECE_LENGTH == Chars("piece length") && PIECES == Chars("pieces")
    ensures LENGTH == Chars("length") && FILES == Chars("files") && PATH == Chars("path")
  {
  }

  predicate IsStr(m: map<Bytes, Any>, key: Bytes) { key in m && m[key].Str? }

  predicate IsInt(m: map<Bytes, Any>, key: Bytes) { key in m && m[key].Int64? }

  predicate IsList(m: map<Bytes, Any>, key: Bytes) { key in m && m[key].List? }

  /** The dictionary of one file: a length and a path with a string in it. */
  predicate GoodFile(v: Any) {
    && v.Dict? && IsInt(v.entries, Chars("length")) && IsList(v.entries, Chars("path"))
    && exists i :: 0 <= i < |v.entries[Chars("path")].items| && v.entries[Chars("path")].items[i].Str?
  }

  /** A name, a positive piece length, whole hashes, and either a length or at least one file, all good. */
  predicate GoodInfo(v: Any) {
    && v.Dict?
    && IsStr(v.entries, Chars("name")) && v.entries[Chars("name")].s != []
    && IsInt(v.entries, Chars("piece length")) && v.entries[Chars("piece length")].n64 > 0
    && IsStr(v.entries, Chars("pieces")) && |v.entries[Chars("pieces")].s| % 20 == 0
    && (IsInt(v.entries, Chars("length"))
        || (IsList(v.entries, Chars("files")) && v.entries[Chars("files")].items != []
            && forall i :: 0 <= i < |v.entries[Chars("files")].items| ==> GoodFile(v.entries[Chars("files")].items[i])))
  }

  lemma {:induction false} StringsAreThere(items: seq<Any>)
    ensures StringsOf(items) == [] <==> forall i :: 0 <= i < |items| ==> !items[i].Str?
  {
    if items != [] {
      StringsAreThere(items[..|items| - 1]);
      assert forall i :: 0 <= i < |items| - 1 ==> items[..|items| - 1][i] == items[i];
    }
  }

  lemma {:induction false} FileAccepted(v: Any)
    ensures ParseFile(v).Some? <==> GoodFile(v)
    ensures ParseFile(v).Some? ==>
              ParseFile(v).value == File(v.entries[Chars("length")].n64, StringsOf(v.entries[Chars("path")].items))
  {
    hide StringsOf;
    KeysSpell();
    if v.Dict? && IsList(v.entries, PATH) { StringsAreThere(v.entries[PATH].items); }
  }

  lemma {:induction false} FilesAccepted(items: seq<Any>)
    ensures ParseFiles(items).Some? <==> forall i :: 0 <= i < |items| ==> GoodFile(items[i])
    ensures ParseFiles(items).Some? ==>
              && |ParseFiles(items).value| == |items|
              && forall i :: 0 <= i < |items| ==> Some(ParseFiles(items).value[i]) == ParseFile(items[i])
  {
    hide ParseFile, GoodFile;
    if items != [] {
      var front := items[..|items| - 1];
      FilesAccepted(front);
      FileAccepted(items[|items| - 1]);
      assert forall i :: 0 <= i < |front| ==> front[i] == items[i];
    }
  }

  /** The parser accepts exactly the good info dictionaries and takes over their parts: the hashes in order, 20
      bytes each, the length if there is one, and otherwise the files in order. */
  lemma {:induction false} ParsesGoodInfos(v: Any)
    ensures ParseValue(v).Ok? <==> GoodInfo(v)
    ensures ParseValue(v).Err? ==> ParseValue(v) == Err(InvalidMetadata)
    ensures ParseValue(v).Ok? ==>
              var info, m := ParseValue(v).value, v.entries;
              && info.name == m[Chars("name")].s && info.pieceLength == m[Chars("piece length")].n64
              && |info.pieces| == |m[Chars("pieces")].s| / 20
              && (forall i :: 0 <= i < |info.pieces| ==> info.pieces[i] == m[Chars("pieces")].s[20 * i..20 * i + 20])
              && (if IsInt(m, Chars("length")) then info.length == m[Chars("length")].n64 && info.files == []
                  else && info.length == 0 && |info.files| == |m[Chars("files")].items|
                       && forall i :: 0 <= i < |info.files| ==> Some(info.files[i]) == ParseFile(m[Chars("files")].items[i]))
  {
    hide ParseFiles, ParseFile, GoodFile;
    KeysSpell();
    if v.Dict? && IsList(v.entries, FILES) { FilesAccepted(v.entries[FILES].items); }
    if ParseValue(v).Ok? {
      var raw := v.entries[PIECES].s;
      forall i | 0 <= i < |raw| / 20 ensures SplitHashes(raw)[i] == raw[20 * i..20 * i + 20] {}
    }
  }

  /** The path of a file is its string elements in order. */
  lemma {:induction false} PathInOrder(items: seq<Any>, k: nat)
    requires k <= |items|
    ensures StringsOf(items[..k]) <= StringsOf(items)
    ensures k < |items| && items[k].Str? ==>
              && |StringsOf(items[..k])| < |StringsOf(items)|
              && StringsOf(items)[|StringsOf(items[..k])|] == items[k].s
    ensures forall p :: p in StringsOf(items) ==> Str(p) in items
    decreases |items|
  {
    if k == |items| {
      assert items[..k] == items;
      if items != [] { PathInOrder(items[..|items| - 1], |items| - 1); }
    } else {
      var front := items[..|items| - 1];
      PathInOrder(front, k);
      assert front[..k] == items[..k];
      if k < |front| { assert front[k] == items[k]; }
    }
  }
}
