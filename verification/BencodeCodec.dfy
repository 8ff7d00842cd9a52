/** The decoder as it runs, a cursor moving over the input, and the encoder as it runs, a buffer
    growing; both are proved to compute the functions of module Bencode. */
module BencodeCodec {
  import opened Prelude
  import opened Bencode
  import BencodeLaws

  // ---- One turn of each decoding loop ----

  /** The first `n` bytes hold no end mark. */
  ghost predicate NoEndBefore(s: Bytes, n: nat) {
    n <= |s| && FindE(s) == match FindE(s[n..]) case None => None case Some(k) => Some(n + k)
  }

  lemma FindStart(s: Bytes)
    ensures NoEndBefore(s, 0)
  {
    assert s[0..] == s;
  }

  lemma SliceOfRest(data: Bytes, start: nat, n: nat, length: nat)
    requires start + n <= |data|
    ensures |data[start..]| == |data| - start
    ensures start + n + length <= |data| ==> data[start..][n..n + length] == data[start + n..start + n + length]
  {
  }

  lemma FindHead(t: Bytes)
    ensures t == [] ==> FindE(t) == None
    ensures t != [] && t[0] == LOWER_E ==> FindE(t) == Some(0)
    ensures t != [] && t[0] != LOWER_E ==>
              var r := FindE(t[1..]); FindE(t) == if r.Some? then Some(r.value + 1) else None
  {
  }

  /** What the byte at `n` says of the search. */
  lemma FindTurn(s: Bytes, n: nat)
    requires NoEndBefore(s, n)
    ensures n <= |s|
    ensures n == |s| ==> FindE(s) == None
    ensures n < |s| && s[n] == LOWER_E ==> FindE(s) == Some(n)
    ensures n < |s| && s[n] != LOWER_E ==> NoEndBefore(s, n + 1) && s[..n + 1] == s[..n] + [s[n]]
  {
    hide FindE;
    FindHead(s[n..]);
    if n < |s| { assert s[n..][1..] == s[n + 1..] && s[n..][0] == s[n]; }
  }

  lemma RestOfRest(data: Bytes, start: nat, n: nat)
    requires start + n <= |data|
    ensures data[start..][n..] == data[start + n..]
    ensures start + n < |data| ==> data[start + n..][0] == data[start..][n]
  {
  }

  lemma ScanHead(t: Bytes)
    ensures t == [] ==> ScanLength(t) == Err(UnexpectedEOF)
    ensures t != [] && t[0] == COLON ==> ScanLength(t) == Ok(0)
    ensures t != [] && t[0] != COLON && !IsDigit(t[0]) ==> ScanLength(t) == Err(InvalidString)
    ensures t != [] && t[0] != COLON && IsDigit(t[0]) ==>
              var r := ScanLength(t[1..]); ScanLength(t) == if r.Ok? then Ok(r.value + 1) else r
  {
  }

  /** The first `n` bytes are digits of the length. */
  ghost predicate DigitsBefore(s: Bytes, n: nat) {
    && n <= |s| && AllDigits(s[..n])
    && ScanLength(s) == match ScanLength(s[n..]) case Err(e) => Err(e) case Ok(k) => Ok(n + k)
  }

  lemma ScanStart(s: Bytes)
    ensures DigitsBefore(s, 0)
  {
    assert s[0..] == s;
  }

  /** What the byte at `n` says of the length. */
  lemma ScanTurn(s: Bytes, n: nat)
    requires DigitsBefore(s, n)
    ensures n <= |s| && AllDigits(s[..n])
    ensures n == |s| ==> ScanLength(s) == Err(UnexpectedEOF)
    ensures n < |s| && s[n] == COLON ==> ScanLength(s) == Ok(n)
    ensures n < |s| && s[n] != COLON && !IsDigit(s[n]) ==> ScanLength(s) == Err(InvalidString)
    ensures n < |s| && s[n] != COLON && IsDigit(s[n]) ==> DigitsBefore(s, n + 1) && s[..n + 1] == s[..n] + [s[n]]
  {
    hide ScanLength;
    ScanHead(s[n..]);
    if n < |s| { assert s[n..][1..] == s[n + 1..] && s[n..][0] == s[n]; }
  }

  lemma ItemsTurn(t: Bytes)
    ensures t == [] ==> DecodeItems(t) == Err(UnexpectedEOF)
    ensures t != [] && t[0] == LOWER_E ==> DecodeItems(t) == Ok(([], 1))
    ensures t != [] && t[0] != LOWER_E ==>
              var v := Bencode.DecodeValue(t);
              && (v.Err? ==> DecodeItems(t) == Err(v.error))
              && (v.Ok? ==> DecodeItems(t) == AfterItems([v.value.0], v.value.1, DecodeItems(t[v.value.1..])))
  {
    hide Bencode.DecodeValue;
  }

  lemma EntriesTurn(t: Bytes)
    ensures t == [] ==> DecodeEntries(t) == Err(UnexpectedEOF)
    ensures t != [] && t[0] == LOWER_E ==> DecodeEntries(t) == Ok((map[], 1))
    ensures t != [] && t[0] != LOWER_E ==>
              var key := Bencode.DecodeValue(t);
              && (key.Err? ==> DecodeEntries(t) == Err(key.error))
              && (key.Ok? && !key.value.0.Str? ==> DecodeEntries(t) == Err(InvalidFormat))
              && (key.Ok? && key.value.0.Str? ==> EntryTurn(t, key.value.0.s, key.value.1))
  {
    hide Bencode.DecodeValue, AfterEntries;
  }

  ghost predicate EntryTurn(t: Bytes, key: Bytes, k: nat)
    requires k <= |t|
  {
    var v := Bencode.DecodeValue(t[k..]);
    && (v.Err? ==> DecodeEntries(t) == Err(v.error))
    && (v.Ok? ==>
          DecodeEntries(t) == AfterEntries(map[key := v.value.0], k + v.value.1, DecodeEntries(t[k + v.value.1..])))
  }

  lemma AfterNothing(r: Result<(seq<Any>, nat), Error>, q: Result<(map<Bytes, Any>, nat), Error>)
    ensures AfterItems([], 0, r) == r && AfterEntries(map[], 0, q) == q
  {
    if r.Ok? { assert [] + r.value.0 == r.value.0; }
    if q.Ok? { assert map[] + q.value.0 == q.value.0; }
  }

  lemma EntriesEnd(m: map<Bytes, Any>, a: nat, e: Error)
    ensures AfterEntries(m, a, Err(e)) == Err(e) && AfterEntries(m, a, Ok((map[], 1))) == Ok((m, a + 1))
  {
    assert m + map[] == m;
  }

  lemma ItemsCompose(list: seq<Any>, v: Any, a: nat, k: nat, r: Result<(seq<Any>, nat), Error>)
    ensures AfterItems(list, a, AfterItems([v], k, r)) == AfterItems(list + [v], a + k, r)
  {
    if r.Ok? { assert list + ([v] + r.value.0) == list + [v] + r.value.0; }
  }

  lemma EntriesCompose(m: map<Bytes, Any>, key: Bytes, v: Any, a: nat, k: nat, r: Result<(map<Bytes, Any>, nat), Error>)
    ensures AfterEntries(m, a, AfterEntries(map[key := v], k, r)) == AfterEntries(m[key := v], a + k, r)
  {
    if r.Ok? { assert m + (map[key := v] + r.value.0) == m[key := v] + r.value.0; }
  }

  /** bytes.Reader. */
  class Reader {
    const data: Bytes
    var pos: nat

    ghost predicate Valid() reads this { pos <= |data| }

    ghost function Rest(): Bytes
      requires Valid()
      reads this
    {
      data[pos..]
    }

    constructor (data: Bytes)
      ensures Valid() && this.data == data && pos == 0
    {
      this.data := data;
      pos := 0;
    }

    method ReadByte() returns (b: Option<byte>)
      requires Valid()
      modifies this`pos
      ensures Valid()
      ensures old(Rest()) == [] ==> b == None && pos == old(pos)
      ensures old(Rest()) != [] ==> b == Some(old(Rest())[0]) && pos == old(pos) + 1 && Rest() == old(Rest())[1..]
    {
      if pos == |data| { return None; }
      b := Some(data[pos]);
      pos := pos + 1;
    }

    method UnreadByte()
      requires Valid() && 0 < pos
      modifies this`pos
      ensures Valid() && pos == old(pos) - 1
    {
      pos := pos - 1;
    }

    method DecodeValue() returns (r: Result<Any, Error>)
      requires Valid()
      modifies this`pos
      ensures Valid() && old(pos) <= pos
      ensures match Bencode.DecodeValue(old(Rest()))
              case Ok((v, n)) => r == Ok(v) && pos == old(pos) + n
              case Err(e) => r == Err(e)
      decreases |data| - pos, 0
    {
      ghost var s := Rest();
      var b := ReadByte();
      if b.None? { return Err(UnexpectedEOF); }
      if b.value == LOWER_I {
        var n := DecodeInt();
        r := match n case Ok(i) => Ok(Int64(i)) case Err(e) => Err(e);
      } else if b.value == LOWER_L {
        var l := DecodeList();
        r := match l case Ok(items) => Ok(List(items)) case Err(e) => Err(e);
      } else if b.value == LOWER_D {
        var d := DecodeDict();
        r := match d case Ok(m) => Ok(Dict(m)) case Err(e) => Err(e);
      } else if IsDigit(b.value) {
        UnreadByte();
        assert Rest() == s;
        var t := DecodeString();
        r := match t case Ok(text) => Ok(Str(text)) case Err(e) => Err(e);
      } else {
        r := Err(InvalidFormat);
      }
    }

    method DecodeInt() returns (r: Result<int, Error>)
      requires Valid()
      modifies this`pos
      ensures Valid() && old(pos) <= pos
      ensures match Bencode.DecodeInt(old(Rest()))
              case Ok((n, k)) => r == Ok(n) && pos == old(pos) + k
              case Err(e) => r == Err(e)
    {
      hide ParseIntToken, FindE, NoEndBefore;
      var buf: Bytes := [];
      ghost var start, s := pos, Rest();
      FindStart(s);
      while true
        invariant Valid() && pos == start + |buf| && |buf| <= |s| && buf == s[..|buf|] && NoEndBefore(s, |buf|)
        decreases |data| - pos
      {
        FindTurn(s, |buf|);
        RestOfRest(data, start, |buf|);
        var b := ReadByte();
        if b.None? { return Err(UnexpectedEOF); }
        if b.value == LOWER_E { break; }
        buf := buf + [b.value];
      }
      r := ParseIntToken(buf);
    }

    method DecodeString() returns (r: Result<Bytes, Error>)
      requires Valid()
      modifies this`pos
      ensures Valid() && old(pos) <= pos
      ensures match Bencode.DecodeString(old(Rest()))
              case Ok((t, k)) => r == Ok(t) && pos == old(pos) + k
              case Err(e) => r == Err(e)
    {
      hide DigitsValue, ScanLength, DigitsBefore, AllDigits;
      var buf: Bytes := [];
      ghost var start, s := pos, Rest();
      ScanStart(s);
      while true
        invariant Valid() && pos == start + |buf| && |buf| <= |s| && buf == s[..|buf|] && DigitsBefore(s, |buf|)
        decreases |data| - pos
      {
        ScanTurn(s, |buf|);
        RestOfRest(data, start, |buf|);
        var b := ReadByte();
        if b.None? { return Err(UnexpectedEOF); }
        if b.value == COLON { break; }
        if !IsDigit(b.value) { return Err(InvalidString); }
        buf := buf + [b.value];
      }
      ScanTurn(s, |buf|);
      if buf == [] || DigitsValue(buf) > INT64_MAX { return Err(InvalidString); }
      var length := DigitsValue(buf);
      SliceOfRest(data, start, |buf| + 1, length);
      if |data| - pos < length {
        pos := |data|;
        return Err(UnexpectedEOF);
      }
      r := Ok(data[pos..pos + length]);
      pos := pos + length;
    }

    method DecodeList() returns (r: Result<seq<Any>, Error>)
      requires Valid()
      modifies this`pos
      ensures Valid() && old(pos) <= pos
      ensures match DecodeItems(old(Rest()))
              case Ok((items, n)) => r == Ok(items) && pos == old(pos) + n
              case Err(e) => r == Err(e)
      decreases |data| - pos, 1
    {
      hide Bencode.DecodeValue, DecodeItems;
      var list: seq<Any> := [];
      ghost var start, s := pos, Rest();
      AfterNothing(DecodeItems(s), Ok((map[], 0)));
      while true
        invariant Valid() && start <= pos
        invariant DecodeItems(s) == AfterItems(list, pos - start, DecodeItems(Rest()))
        decreases |data| - pos
      {
        ghost var t := Rest();
        ItemsTurn(t);
        var b := ReadByte();
        if b.None? { return Err(UnexpectedEOF); }
        if b.value == LOWER_E { assert list + [] == list; return Ok(list); }
        UnreadByte();
        var v := DecodeValue();
        if v.Err? { return Err(v.error); }
        ghost var k := Bencode.DecodeValue(t).value.1;
        assert Rest() == t[k..];
        ItemsCompose(list, v.value, pos - k - start, k, DecodeItems(Rest()));
        list := list + [v.value];
      }
    }

    method DecodeDict() returns (r: Result<map<Bytes, Any>, Error>)
      requires Valid()
      modifies this`pos
      ensures Valid() && old(pos) <= pos
      ensures match DecodeEntries(old(Rest()))
              case Ok((m, n)) => r == Ok(m) && pos == old(pos) + n
              case Err(e) => r == Err(e)
      decreases |data| - pos, 1
    {
      hide Bencode.DecodeValue, DecodeEntries, AfterEntries;
      var dict: map<Bytes, Any> := map[];
      ghost var start, s := pos, Rest();
      AfterNothing(Ok(([], 0)), DecodeEntries(s));
      while true
        invariant Valid() && start <= pos
        invariant DecodeEntries(s) == AfterEntries(dict, pos - start, DecodeEntries(Rest()))
        decreases |data| - pos
      {
        ghost var t, from := Rest(), pos;
        EntriesTurn(t);
        var b := ReadByte();
        if b.None? { EntriesEnd(dict, from - start, UnexpectedEOF); return Err(UnexpectedEOF); }
        if b.value == LOWER_E { EntriesEnd(dict, from - start, UnexpectedEOF); return Ok(dict); }
        UnreadByte();
        var key := DecodeValue();
        if key.Err? { EntriesEnd(dict, from - start, key.error); return Err(key.error); }
        if !key.value.Str? { EntriesEnd(dict, from - start, InvalidFormat); return Err(InvalidFormat); }
        ghost var k := Bencode.DecodeValue(t).value.1;
        assert Rest() == t[k..];
        var v := DecodeValue();
        if v.Err? { EntriesEnd(dict, from - start, v.error); return Err(v.error); }
        assert Rest() == t[pos - from..];
        EntriesCompose(dict, key.value.s, v.value, from - start, pos - from, DecodeEntries(Rest()));
        dict := dict[key.value.s := v.value];
      }
    }
  }

  /** bencode.DecodeBytes: the value at the front of the data and how many bytes it took. */
  method DecodeBytes(data: Bytes) returns (r: Result<(Any, nat), Error>)
    ensures r == Bencode.DecodeValue(data)
  {
    var reader := new Reader(data);
    assert reader.Rest() == data;
    var v := reader.DecodeValue();
    r := match v case Ok(value) => Ok((value, reader.pos)) case Err(e) => Err(e);
  }

  // ---- Sorting keys (the library's sort.Strings) ----

  function InsertKey(k: Bytes, s: seq<Bytes>): seq<Bytes> {
    if s == [] then [k] else if Less(k, s[0]) then [k] + s else [s[0]] + InsertKey(k, s[1..])
  }

  function SortStrings(s: seq<Bytes>): seq<Bytes> {
    if s == [] then [] else InsertKey(s[0], SortStrings(s[1..]))
  }

  lemma {:induction false} InsertKeySorts(k: Bytes, s: seq<Bytes>)
    requires StrictlySorted(s) && k !in s
    ensures StrictlySorted(InsertKey(k, s))
    ensures forall x :: x in InsertKey(k, s) <==> x == k || x in s
  {
    hide Less;
    if s != [] {
      LessIsTotal(k, s[0]);
      if Less(k, s[0]) {
        forall j | 1 <= j < |s| ensures Less(k, s[j]) { LessIsTransitive(k, s[0], s[j]); }
      } else {
        InsertKeySorts(k, s[1..]);
        var t := InsertKey(k, s[1..]);
        assert s == [s[0]] + s[1..];
        forall j | 0 <= j < |t| ensures Less(s[0], t[j]) {
          assert t[j] in t;
          if t[j] != k {
            var i :| 0 <= i < |s[1..]| && s[1..][i] == t[j];
          }
        }
      }
    }
  }

  lemma {:induction false} SortStringsSorts(s: seq<Bytes>)
    requires forall i, j :: 0 <= i < j < |s| ==> s[i] != s[j]
    ensures StrictlySorted(SortStrings(s))
    ensures forall x :: x in SortStrings(s) <==> x in s
  {
    hide Less;
    if s != [] {
      SortStringsSorts(s[1..]);
      InsertKeySorts(s[0], SortStrings(s[1..]));
      assert s == [s[0]] + s[1..];
    }
  }

  /** bytes.Buffer with the encoder's recursion. */
  class Buffer {
    var out: Bytes

    constructor ()
      ensures out == []
    {
      out := [];
    }

    method Write(t: Bytes)
      modifies this
      ensures out == old(out) + t
    {
      out := out + t;
    }

    method EncodeValue(v: Any) returns (ok: bool)
      modifies this
      ensures ok <==> Encodable(v)
      ensures ok ==> out == old(out) + Render(v)
      decreases v, 1
    {
      match v {
        case Int(n) => Write([LOWER_I] + FormatInt(n) + [LOWER_E]); ok := true;
        case Int64(n) => Write([LOWER_I] + FormatInt(n) + [LOWER_E]); ok := true;
        case Str(s) => Write(RenderString(s)); ok := true;
        case Slice(b) => Write(FormatNat(|b|) + [COLON]); Write(b); ok := true;
        case List(_) => ok := EncodeList(v);
        case Dict(_) => ok := EncodeDict(v);
        case Other => ok := false;
      }
    }

    method EncodeList(v: Any) returns (ok: bool)
      requires v.List?
      modifies this
      ensures ok <==> Encodable(v)
      ensures ok ==> out == old(out) + Render(v)
      decreases v, 0
    {
      hide Render;
      var items := v.items;
      Write([LOWER_L]);
      for i := 0 to |items|
        invariant forall j :: 0 <= j < i ==> Encodable(items[j])
        invariant Encodable(v) ==> out + RenderItems(v, i) == old(out) + [LOWER_L] + RenderItems(v, 0)
      {
        ghost var before := out;
        ok := EncodeValue(items[i]);
        if !ok { return; }
        if Encodable(v) {
          assert before + RenderItems(v, i) == out + RenderItems(v, i + 1);
        }
      }
      assert out + [] == out;
      Write([LOWER_E]);
      ok := true;
      ContainerText(v);
    }

    method EncodeDict(v: Any) returns (ok: bool)
      requires v.Dict?
      modifies this
      ensures ok <==> Encodable(v)
      ensures ok ==> out == old(out) + Render(v)
      decreases v, 0
    {
      hide Render, RenderString, RenderEntries, Encodable;
      var m := v.entries;
      Write([LOWER_D]);
      var collected := CollectKeys(m);
      var keys := SortStrings(collected);
      SortStringsSorts(collected);
      SortedArrangementUnique(keys, SortedKeys(m.Keys));
      EncodableEntries(v, keys);
      for i := 0 to |keys|
        invariant forall j :: 0 <= j < i ==> Encodable(m[keys[j]])
        invariant Encodable(v) ==>
                    out + RenderEntries(v, keys[i..]) == old(out) + [LOWER_D] + RenderEntries(v, keys)
      {
        ghost var before := out;
        var k := keys[i];
        assert k in keys;
        Write(RenderString(k));
        ok := EncodeValue(m[k]);
        if !ok { return; }
        if Encodable(v) {
          EntryText(v, keys, i, before);
        }
      }
      EntryText(v, keys, |keys|, out);
      Write([LOWER_E]);
      ok := true;
      ContainerText(v);
    }
  }

  lemma EncodableEntries(v: Any, keys: seq<Bytes>)
    requires v.Dict? && forall k :: k in keys <==> k in v.entries
    ensures Encodable(v) <==> forall i :: 0 <= i < |keys| ==> Encodable(v.entries[keys[i]])
  {
    forall k | k in v.entries ensures k in keys {}
  }

  lemma EntryText(v: Any, keys: seq<Bytes>, i: nat, before: Bytes)
    requires v.Dict? && Encodable(v) && i <= |keys| && forall k :: k in keys ==> k in v.entries
    ensures i == |keys| ==> before + RenderEntries(v, keys[i..]) == before
    ensures i < |keys| ==>
              && Encodable(v.entries[keys[i]])
              && before + RenderEntries(v, keys[i..])
              == before + RenderString(keys[i]) + Render(v.entries[keys[i]]) + RenderEntries(v, keys[i + 1..])
  {
    hide RenderString;
    if i < |keys| {
      assert keys[i] in keys;
      assert keys[i..][1..] == keys[i + 1..];
    }
  }

  lemma ContainerText(v: Any)
    requires Encodable(v)
    ensures v.List? ==> Render(v) == [LOWER_L] + RenderItems(v, 0) + [LOWER_E]
    ensures v.Dict? ==> Render(v) == [LOWER_D] + RenderEntries(v, SortedKeys(v.entries.Keys)) + [LOWER_E]
  {
  }

  /** Go's iteration over a map: every key once, in an order that is not specified. */
  method CollectKeys(m: map<Bytes, Any>) returns (keys: seq<Bytes>)
    ensures forall i, j :: 0 <= i < j < |keys| ==> keys[i] != keys[j]
    ensures forall k :: k in keys <==> k in m
  {
    keys := [];
    var left := m.Keys;
    while left != {}
      invariant forall i, j :: 0 <= i < j < |keys| ==> keys[i] != keys[j]
      invariant forall k :: k in m <==> k in keys || k in left
      invariant forall k :: k in keys ==> k !in left
      decreases left
    {
      var k :| k in left;
      keys := keys + [k];
      left := left - {k};
    }
  }

  /** bencode.Encode. */
  method Encode(v: Any) returns (r: Result<Bytes, Error>)
    ensures r == BencodeLaws.Encode(v)
  {
    var buffer := new Buffer();
    var ok := buffer.EncodeValue(v);
    assert ok ==> buffer.out == Render(v);
    r := if ok then Ok(buffer.out) else Err(UnsupportedType);
  }
}
