/** The bencode format ("bencoding" section of BEP 3): the values, the decoder and the encoder as
    functions of the bytes they read and write. */
module Bencode {
  import opened Prelude

  type Bytes = seq<byte>

  /** The Go values that the package accepts and returns. Go's `int` has 64 bits. */
  datatype Any =
    | Int(n: int)
    | Int64(n64: int)
    | Str(s: Bytes)
    | Slice(b: Bytes)
    | List(items: seq<Any>)
    | Dict(entries: map<Bytes, Any>)
    | Other

  datatype Error = UnexpectedEOF | InvalidFormat | InvalidInteger | InvalidString | UnsupportedType

  const LOWER_I: byte := 105
  const LOWER_L: byte := 108
  const LOWER_D: byte := 100
  const LOWER_E: byte := 101
  const COLON: byte := 58
  const PLUS: byte := 43
  const MINUS: byte := 45
  const ZERO: byte := 48

  predicate IsDigit(b: byte) { 48 <= b <= 57 }

  predicate AllDigits(t: Bytes) { forall i :: 0 <= i < |t| ==> IsDigit(t[i]) }

  /** The number written by a string of decimal digits. */
  function DigitsValue(t: Bytes): nat
    requires AllDigits(t)
  {
    if t == [] then 0 else 10 * DigitsValue(t[..|t| - 1]) + (t[|t| - 1] - ZERO) as nat
  }

  /** strconv.ParseInt(t, 10, 64); None stands for its syntax and range errors. */
  function ParseInt64(t: Bytes): Option<int> {
    var negative := t != [] && t[0] == MINUS;
    var digits := if t != [] && (t[0] == MINUS || t[0] == PLUS) then t[1..] else t;
    if digits == [] || !AllDigits(digits) then None
    else
      var n := if negative then -(DigitsValue(digits) as int) else DigitsValue(digits);
      if INT64_MIN <= n <= INT64_MAX then Some(n) else None
  }

  /** The text between `i` and `e`. */
  function ParseIntToken(t: Bytes): Result<int, Error> {
    if t == [] then Err(InvalidInteger)
    else if |t| > 1 && t[0] == ZERO then Err(InvalidInteger)
    else if t == [MINUS, ZERO] then Err(InvalidInteger)
    else match ParseInt64(t)
      case None => Err(InvalidInteger)
      case Some(n) => Ok(n)
  }

  /** Where the first `e` is. */
  function FindE(s: Bytes): (r: Option<nat>)
    ensures r.Some? ==> r.value < |s| && s[r.value] == LOWER_E
  {
    if s == [] then None
    else if s[0] == LOWER_E then Some(0)
    else match FindE(s[1..])
      case None => None
      case Some(k) => Some(k + 1)
  }

  /** Decodes what follows `i`; the second component counts the bytes consumed, `e` included. */
  function DecodeInt(s: Bytes): (r: Result<(int, nat), Error>)
    ensures r.Ok? ==> 1 <= r.value.1 <= |s|
  {
    match FindE(s)
    case None => Err(UnexpectedEOF)
    case Some(k) =>
      match ParseIntToken(s[..k])
      case Err(e) => Err(e)
      case Ok(n) => Ok((n, k + 1))
  }

  /** Where the colon after a run of digits is. */
  function ScanLength(s: Bytes): (r: Result<nat, Error>)
    ensures r.Ok? ==> r.value < |s| && s[r.value] == COLON && AllDigits(s[..r.value])
  {
    if s == [] then Err(UnexpectedEOF)
    else if s[0] == COLON then Ok(0)
    else if !IsDigit(s[0]) then Err(InvalidString)
    else match ScanLength(s[1..])
      case Err(e) => Err(e)
      case Ok(k) => assert s[..k + 1] == [s[0]] + s[1..][..k]; Ok(k + 1)
  }

  /** Decodes `<length>:<data>`. */
  function DecodeString(s: Bytes): (r: Result<(Bytes, nat), Error>)
    ensures r.Ok? ==> 1 <= r.value.1 <= |s| && |r.value.0| <= INT64_MAX
  {
    match ScanLength(s)
    case Err(e) => Err(e)
    case Ok(k) =>
      var n := if k == 0 then INT64_MAX + 1 else DigitsValue(s[..k]);
      if n > INT64_MAX then Err(InvalidString)
      else if |s| - (k + 1) < n then Err(UnexpectedEOF)
      else Ok((s[k + 1..k + 1 + n], k + 1 + n))
  }

  /** Decodes one value at the front of `s` and counts the bytes it took. */
  function DecodeValue(s: Bytes): (r: Result<(Any, nat), Error>)
    ensures r.Ok? ==> 1 <= r.value.1 <= |s|
    decreases |s|, 0
  {
    if s == [] then Err(UnexpectedEOF)
    else if s[0] == LOWER_I then
      match DecodeInt(s[1..])
      case Err(e) => Err(e)
      case Ok((n, k)) => Ok((Int64(n), k + 1))
    else if s[0] == LOWER_L then
      match DecodeItems(s[1..])
      case Err(e) => Err(e)
      case Ok((items, k)) => Ok((List(items), k + 1))
    else if s[0] == LOWER_D then
      match DecodeEntries(s[1..])
      case Err(e) => Err(e)
      case Ok((m, k)) => Ok((Dict(m), k + 1))
    else if IsDigit(s[0]) then
      match DecodeString(s)
      case Err(e) => Err(e)
      case Ok((t, k)) => Ok((Str(t), k))
    else Err(InvalidFormat)
  }

  /** The outcome of a list whose first items are `list`, taking `k` bytes, given the outcome of the rest. */
  function AfterItems(list: seq<Any>, k: nat, r: Result<(seq<Any>, nat), Error>): Result<(seq<Any>, nat), Error> {
    match r
    case Err(e) => Err(e)
    case Ok((rest, n)) => Ok((list + rest, k + n))
  }

  /** The same for a dictionary; later entries win. */
  function AfterEntries(m: map<Bytes, Any>, k: nat, r: Result<(map<Bytes, Any>, nat), Error>)
      : Result<(map<Bytes, Any>, nat), Error>
  {
    match r
    case Err(e) => Err(e)
    case Ok((rest, n)) => Ok((m + rest, k + n))
  }

  /** Decodes the values of a list up to and including its `e`. */
  function DecodeItems(s: Bytes): (r: Result<(seq<Any>, nat), Error>)
    ensures r.Ok? ==> 1 <= r.value.1 <= |s|
    decreases |s|, 1
  {
    if s == [] then Err(UnexpectedEOF)
    else if s[0] == LOWER_E then Ok(([], 1))
    else match DecodeValue(s)
      case Err(e) => Err(e)
      case Ok((v, k)) =>
        AfterItems([v], k, DecodeItems(s[k..]))
  }

  /** Decodes the entries of a dictionary up to and including its `e`. A repeated key keeps the
      later value; the order of the keys is not checked. */
  function DecodeEntries(s: Bytes): (r: Result<(map<Bytes, Any>, nat), Error>)
    ensures r.Ok? ==> 1 <= r.value.1 <= |s|
    decreases |s|, 1
  {
    if s == [] then Err(UnexpectedEOF)
    else if s[0] == LOWER_E then Ok((map[], 1))
    else match DecodeValue(s)
      case Err(e) => Err(e)
      case Ok((key, k)) =>
        if !key.Str? then Err(InvalidFormat)
        else match DecodeValue(s[k..])
          case Err(e) => Err(e)
          case Ok((v, m)) =>
            AfterEntries(map[key.s := v], k + m, DecodeEntries(s[k + m..]))
  }

  // ---- Encoding ----

  /** Decimal digits without leading zeros, as fmt prints them. */
  function FormatNat(n: nat): (t: Bytes)
    ensures |t| > 0
  {
    if n < 10 then [ZERO + n as byte] else FormatNat(n / 10) + [ZERO + (n % 10) as byte]
  }

  function FormatInt(n: int): Bytes {
    if n < 0 then [MINUS] + FormatNat(-n) else FormatNat(n)
  }

  function RenderString(t: Bytes): Bytes { FormatNat(|t|) + [COLON] + t }

  /** The values that a Go program can build: machine integers and lengths that fit an int. */
  predicate Representable(v: Any) {
    match v
    case Int(n) => INT64_MIN <= n <= INT64_MAX
    case Int64(n) => INT64_MIN <= n <= INT64_MAX
    case Str(s) => |s| <= INT64_MAX
    case Slice(b) => |b| <= INT64_MAX
    case List(items) => forall i :: 0 <= i < |items| ==> Representable(items[i])
    case Dict(m) => forall k :: k in m ==> |k| <= INT64_MAX && Representable(m[k])
    case Other => true
  }

  /** No part of the value has a type that the encoder refuses. */
  predicate Encodable(v: Any) {
    match v
    case List(items) => forall i :: 0 <= i < |items| ==> Encodable(items[i])
    case Dict(m) => forall k :: k in m ==> Encodable(m[k])
    case Other => false
    case _ => true
  }

  /** What decoding gives back: every integer an int64, every byte slice a string. */
  function Normalise(v: Any): Any {
    match v
    case Int(n) => Int64(n)
    case Slice(b) => Str(b)
    case List(items) => List(seq(|items|, i requires 0 <= i < |items| => Normalise(items[i])))
    case Dict(m) => Dict(map k | k in m :: Normalise(m[k]))
    case _ => v
  }

  /** Go's order on strings: byte by byte, a proper prefix first. */
  predicate Less(a: Bytes, b: Bytes) {
    if b == [] then false
    else if a == [] then true
    else a[0] < b[0] || (a[0] == b[0] && Less(a[1..], b[1..]))
  }

  predicate StrictlySorted(keys: seq<Bytes>) {
    forall i, j :: 0 <= i < j < |keys| ==> Less(keys[i], keys[j])
  }

  /** The one strictly increasing arrangement of a set of keys. */
  ghost function SortedKeys(keys: set<Bytes>): (r: seq<Bytes>)
    ensures StrictlySorted(r)
    ensures forall k :: k in r <==> k in keys
  {
    assert exists r: seq<Bytes> :: StrictlySorted(r) && forall k :: k in r <==> k in keys by {
      var t := SortedArrangementExists(keys);
    }
    var r :| StrictlySorted(r) && forall k :: k in r <==> k in keys;
    r
  }

  /** The bytes written for an encodable value. */
  ghost function Render(v: Any): Bytes
    requires Encodable(v)
    decreases v, 1, 0
  {
    match v
    case Int(n) => [LOWER_I] + FormatInt(n) + [LOWER_E]
    case Int64(n) => [LOWER_I] + FormatInt(n) + [LOWER_E]
    case Str(s) => RenderString(s)
    case Slice(b) => RenderString(b)
    case List(items) => [LOWER_L] + RenderItems(v, 0) + [LOWER_E]
    case Dict(m) => [LOWER_D] + RenderEntries(v, SortedKeys(m.Keys)) + [LOWER_E]
  }

  /** The items of a list from position `from` on. */
  ghost function RenderItems(v: Any, from: nat): Bytes
    requires v.List? && Encodable(v) && from <= |v.items|
    decreases v, 0, |v.items| - from
  {
    if from == |v.items| then [] else Render(v.items[from]) + RenderItems(v, from + 1)
  }

  /** The entries of a dictionary under the given keys, in that order. */
  ghost function RenderEntries(v: Any, keys: seq<Bytes>): Bytes
    requires v.Dict? && Encodable(v) && forall k :: k in keys ==> k in v.entries
    decreases v, 0, |keys|
  {
    if keys == [] then []
    else RenderString(keys[0]) + Render(v.entries[keys[0]]) + RenderEntries(v, keys[1..])
  }

  // ---- The order on keys ----

  lemma {:induction false} LessIsTotal(a: Bytes, b: Bytes)
    ensures Less(a, b) || a == b || Less(b, a)
    ensures !(Less(a, b) && Less(b, a))
    ensures !Less(a, a)
  {
    if a != [] && b != [] {
      LessIsTotal(a[1..], b[1..]);
      LessIsTotal(a[1..], a[1..]);
      assert a == [a[0]] + a[1..] && b == [b[0]] + b[1..];
    } else if a != [] {
      LessIsTotal(a[1..], a[1..]);
    }
  }

  lemma {:induction false} LessIsTransitive(a: Bytes, b: Bytes, c: Bytes)
    requires Less(a, b) && Less(b, c)
    ensures Less(a, c)
  {
    if a != [] && a[0] == b[0] && b[0] == c[0] {
      LessIsTransitive(a[1..], b[1..], c[1..]);
    }
  }

  lemma {:induction false} LeastKeyExists(keys: set<Bytes>) returns (least: Bytes)
    requires keys != {}
    ensures least in keys && forall k :: k in keys && k != least ==> Less(least, k)
  {
    var first :| first in keys;
    var rest := keys - {first};
    assert keys == rest + {first};
    if rest == {} {
      least := first;
    } else {
      var other := LeastKeyExists(rest);
      LessIsTotal(first, other);
      if Less(other, first) {
        least := other;
      } else {
        least := first;
        forall k | k in rest && k != other ensures Less(first, k) {
          LessIsTransitive(first, other, k);
        }
      }
    }
  }

  lemma {:induction false} SortedArrangementExists(keys: set<Bytes>) returns (r: seq<Bytes>)
    ensures StrictlySorted(r) && forall k :: k in r <==> k in keys
  {
    if keys == {} {
      r := [];
    } else {
      var least := LeastKeyExists(keys);
      var t := SortedArrangementExists(keys - {least});
      r := [least] + t;
      forall i, j | 0 <= i < j < |r| ensures Less(r[i], r[j]) {
        if i == 0 { assert r[j] in t; }
      }
    }
  }

  /** Two strictly increasing arrangements of the same keys are the same: the bytes of an encoded
      dictionary do not depend on the order in which Go's map iteration yields the keys. */
  lemma {:induction false} SortedArrangementUnique(a: seq<Bytes>, b: seq<Bytes>)
    requires StrictlySorted(a) && StrictlySorted(b)
    requires forall k :: k in a <==> k in b
    ensures a == b
  {
    if a == [] {
      assert forall i :: 0 <= i < |b| ==> b[i] in a;
    } else {
      assert a[0] in b;
      assert b[0] in a;
      if a[0] != b[0] {
        var i :| 0 <= i < |b| && b[i] == a[0];
        var j :| 0 <= j < |a| && a[j] == b[0];
        LessIsTotal(a[0], b[0]);
        assert false;
      }
      forall k ensures k in a[1..] <==> k in b[1..] {
        LessIsTotal(a[0], a[0]);
        assert k in a[1..] ==> k in a;
        assert k in b[1..] ==> k in b;
        if k in a[1..] { var i :| 1 <= i < |a| && a[i] == k; assert k != a[0]; assert k in b; }
        if k in b[1..] { var i :| 1 <= i < |b| && b[i] == k; assert k != b[0]; assert k in a; }
      }
      SortedArrangementUnique(a[1..], b[1..]);
      assert a == [a[0]] + a[1..] && b == [b[0]] + b[1..];
    }
  }
}
