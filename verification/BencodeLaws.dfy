/** What the bencode format promises: round trips, locality, and a canonical form. */
module BencodeLaws {
  import opened Prelude
  import opened Bencode

  /** bencode.Encode. */
  ghost function Encode(v: Any): Result<Bytes, Error> {
    if Encodable(v) then Ok(Render(v)) else Err(UnsupportedType)
  }

  // ---- One step of the decoder ----

  lemma {:induction false} ValueStep(s: Bytes)
    requires s != []
    ensures s[0] == LOWER_I && DecodeInt(s[1..]).Ok? ==>
              var (n, k) := DecodeInt(s[1..]).value; DecodeValue(s) == Ok((Int64(n), k + 1))
    ensures s[0] == LOWER_L && DecodeItems(s[1..]).Ok? ==>
              var (items, k) := DecodeItems(s[1..]).value; DecodeValue(s) == Ok((List(items), k + 1))
    ensures s[0] == LOWER_D && DecodeEntries(s[1..]).Ok? ==>
              var (m, k) := DecodeEntries(s[1..]).value; DecodeValue(s) == Ok((Dict(m), k + 1))
    ensures IsDigit(s[0]) && DecodeString(s).Ok? ==>
              var (t, k) := DecodeString(s).value; DecodeValue(s) == Ok((Str(t), k))
  {
    hide DecodeInt, DecodeString, DecodeItems, DecodeEntries;
  }

  lemma {:induction false} EndStep(s: Bytes)
    requires s != [] && s[0] == LOWER_E
    ensures DecodeItems(s) == Ok(([], 1)) && DecodeEntries(s) == Ok((map[], 1))
  {
  }

  lemma {:induction false} ItemsStep(a: Bytes, end: Bytes, v: Any, rest: seq<Any>, n: nat)
    requires a != [] && a[0] != LOWER_E
    requires DecodeValue(a + end) == Ok((v, |a|)) && DecodeItems(end) == Ok((rest, n))
    ensures DecodeItems(a + end) == Ok(([v] + rest, |a| + n))
  {
    hide DecodeValue;
    assert (a + end)[|a|..] == end;
  }

  lemma {:induction false} EntriesStep(a: Bytes, b: Bytes, end: Bytes, key: Bytes, v: Any,
                                       rest: map<Bytes, Any>, n: nat)
    requires a != [] && a[0] != LOWER_E
    requires DecodeValue(a + (b + end)) == Ok((Str(key), |a|)) && DecodeValue(b + end) == Ok((v, |b|))
    requires DecodeEntries(end) == Ok((rest, n))
    ensures DecodeEntries(a + (b + end)) == Ok((map[key := v] + rest, |a| + |b| + n))
  {
    hide DecodeValue;
    var s := a + (b + end);
    assert s[|a|..] == b + end;
    assert s[|a| + |b|..] == end;
  }

  /** The parts that a successful decode of a list's items went through. */
  lemma {:induction false} ItemsParts(s: Bytes) returns (v: Any, k: nat, rest: seq<Any>, n: nat)
    requires DecodeItems(s).Ok? && s[0] != LOWER_E
    ensures DecodeValue(s) == Ok((v, k)) && 1 <= k && k + n <= |s|
    ensures DecodeItems(s[k..]) == Ok((rest, n)) && DecodeItems(s) == Ok(([v] + rest, k + n))
  {
    hide DecodeValue;
    v, k := DecodeValue(s).value.0, DecodeValue(s).value.1;
    rest, n := DecodeItems(s[k..]).value.0, DecodeItems(s[k..]).value.1;
  }

  /** The parts that a successful decode of a dictionary's entries went through. */
  lemma {:induction false} EntriesParts(s: Bytes)
      returns (key: Bytes, k: nat, v: Any, m: nat, rest: map<Bytes, Any>, n: nat)
    requires DecodeEntries(s).Ok? && s[0] != LOWER_E
    ensures DecodeValue(s) == Ok((Str(key), k)) && k <= |s| && DecodeValue(s[k..]) == Ok((v, m))
    ensures k + m <= |s| && DecodeEntries(s[k + m..]) == Ok((rest, n))
    ensures DecodeEntries(s) == Ok((map[key := v] + rest, k + m + n))
    ensures 1 <= k && 1 <= m && k + m + n <= |s|
  {
    hide DecodeValue;
    key, k := DecodeValue(s).value.0.s, DecodeValue(s).value.1;
    v, m := DecodeValue(s[k..]).value.0, DecodeValue(s[k..]).value.1;
    rest, n := DecodeEntries(s[k + m..]).value.0, DecodeEntries(s[k + m..]).value.1;
  }

  // ---- Decimal integers ----

  lemma {:induction false} FormatNatParses(n: nat)
    ensures AllDigits(FormatNat(n)) && DigitsValue(FormatNat(n)) == n
    ensures FormatNat(n)[0] == ZERO ==> n == 0
    ensures n == 0 ==> FormatNat(n) == [ZERO]
  {
    if n >= 10 {
      FormatNatParses(n / 10);
      var t := FormatNat(n);
      assert t[..|t| - 1] == FormatNat(n / 10);
    } else {
      assert FormatNat(n)[..0] == [];
    }
  }

  lemma {:induction false} FormatIntParses(n: int)
    requires INT64_MIN <= n <= INT64_MAX
    ensures ParseIntToken(FormatInt(n)) == Ok(n)
    ensures forall i :: 0 <= i < |FormatInt(n)| ==> FormatInt(n)[i] != LOWER_E
  {
    hide FormatNat, DigitsValue;
    var t := FormatInt(n);
    var digits := FormatNat(if n < 0 then -n else n);
    FormatNatParses(if n < 0 then -n else n);
    assert IsDigit(digits[0]);
    if n < 0 {
      assert t == [MINUS] + digits;
      assert t[1..] == digits;
      assert t[1] != ZERO;
      assert ParseInt64(t) == Some(n);
    } else {
      assert t == digits;
      assert ParseInt64(t) == Some(n);
      if |t| > 1 { assert t[0] != ZERO; }
    }
  }

  lemma {:induction false} FindESkips(t: Bytes, r: Bytes)
    requires forall i :: 0 <= i < |t| ==> t[i] != LOWER_E
    ensures FindE(t + [LOWER_E] + r) == Some(|t|)
  {
    var s := t + [LOWER_E] + r;
    if t != [] {
      FindESkips(t[1..], r);
      assert s[1..] == t[1..] + [LOWER_E] + r;
    }
  }

  lemma {:induction false} IntRoundTrip(n: int, r: Bytes)
    requires INT64_MIN <= n <= INT64_MAX
    ensures var t := [LOWER_I] + FormatInt(n) + [LOWER_E];
            DecodeValue(t + r) == Ok((Int64(n), |t|))
  {
    hide DecodeValue, FormatInt, ParseIntToken, FindE;
    var t := FormatInt(n);
    FormatIntParses(n);
    FindESkips(t, r);
    var s := [LOWER_I] + t + [LOWER_E] + r;
    assert s[1..] == t + [LOWER_E] + r;
    assert s[1..][..|t|] == t;
    ValueStep(s);
  }

  // ---- Byte strings ----

  lemma {:induction false} ScanLengthSkips(t: Bytes, r: Bytes)
    requires AllDigits(t)
    ensures ScanLength(t + [COLON] + r) == Ok(|t|)
  {
    var s := t + [COLON] + r;
    if t != [] {
      ScanLengthSkips(t[1..], r);
      assert s[1..] == t[1..] + [COLON] + r;
    }
  }

  /** Where the parts of a rendered string are. */
  lemma {:induction false} StringParts(d: Bytes, t: Bytes, r: Bytes)
    requires d != []
    ensures var s := d + [COLON] + t + r;
            && s == d + [COLON] + (t + r) && |s| == |d| + 1 + |t| + |r|
            && s[..|d|] == d && s[|d| + 1..|d| + 1 + |t|] == t && s[0] == d[0]
  {
  }

  lemma {:induction false} StringRoundTrip(t: Bytes, r: Bytes)
    requires |t| <= INT64_MAX
    ensures RenderString(t) != [] && IsDigit(RenderString(t)[0])
    ensures DecodeString(RenderString(t) + r) == Ok((t, |RenderString(t)|))
    ensures DecodeValue(RenderString(t) + r) == Ok((Str(t), |RenderString(t)|))
  {
    hide DecodeValue, FormatNat, ScanLength, DigitsValue;
    var d := FormatNat(|t|);
    FormatNatParses(|t|);
    StringParts(d, t, r);
    ScanLengthSkips(d, t + r);
    ValueStep(RenderString(t) + r);
  }

  // ---- Round trip under any suffix ----

  /** Decoding an encoded value, whatever bytes follow it, gives the normalised value and consumes
      exactly the encoding. */
  lemma {:induction false} RoundTrip(v: Any, r: Bytes)
    requires Encodable(v) && Representable(v)
    ensures DecodeValue(Render(v) + r) == Ok((Normalise(v), |Render(v)|))
    decreases v, 2, 0
  {
    match v
    case Int(n) => IntRoundTrip(n, r);
    case Int64(n) => IntRoundTrip(n, r);
    case Str(s) => StringRoundTrip(s, r);
    case Slice(b) => StringRoundTrip(b, r);
    case List(_) => ListRoundTrip(v, r);
    case Dict(_) => DictRoundTrip(v, r);
  }

  lemma {:induction false} ListRoundTrip(v: Any, r: Bytes)
    requires v.List? && Encodable(v) && Representable(v)
    ensures DecodeValue(Render(v) + r) == Ok((Normalise(v), |Render(v)|))
    decreases v, 1, 0
  {
    hide DecodeValue, RenderItems, DecodeItems;
    ItemsRoundTrip(v, 0, r);
    var s := Render(v) + r;
    assert s[1..] == RenderItems(v, 0) + [LOWER_E] + r;
    ValueStep(s);
    assert Normalise(v).items == NormaliseFrom(v, 0);
  }

  lemma {:induction false} DictRoundTrip(v: Any, r: Bytes)
    requires v.Dict? && Encodable(v) && Representable(v)
    ensures DecodeValue(Render(v) + r) == Ok((Normalise(v), |Render(v)|))
    decreases v, 1, 1
  {
    hide DecodeValue, DecodeEntries, RenderEntries;
    KeyOrderIsNotChecked(v, SortedKeys(v.entries.Keys), r);
  }

  /** A dictionary text decodes to the same value in whatever order its keys stand: the decoder does
      not check that they are sorted. */
  lemma {:induction false} KeyOrderIsNotChecked(v: Any, keys: seq<Bytes>, r: Bytes)
    requires v.Dict? && Encodable(v) && Representable(v)
    requires forall k :: k in keys <==> k in v.entries
    ensures var t := [LOWER_D] + RenderEntries(v, keys) + [LOWER_E];
            DecodeValue(t + r) == Ok((Normalise(v), |t|))
    decreases v, 1, 0
  {
    hide DecodeValue, RenderEntries, DecodeEntries;
    EntriesRoundTrip(v, keys, r);
    var t := [LOWER_D] + RenderEntries(v, keys) + [LOWER_E];
    assert (t + r)[1..] == RenderEntries(v, keys) + [LOWER_E] + r;
    ValueStep(t + r);
    assert Normalise(v).entries == NormaliseUnder(v, keys);
  }

  ghost function NormaliseFrom(v: Any, from: nat): seq<Any>
    requires v.List? && from <= |v.items|
  {
    seq(|v.items| - from, i requires 0 <= i < |v.items| - from => Normalise(v.items[from + i]))
  }

  ghost function NormaliseUnder(v: Any, keys: seq<Bytes>): map<Bytes, Any>
    requires v.Dict? && forall k :: k in keys ==> k in v.entries
  {
    map k | k in keys :: Normalise(v.entries[k])
  }

  lemma {:induction false} ItemsRoundTrip(v: Any, from: nat, r: Bytes)
    requires v.List? && Encodable(v) && Representable(v) && from <= |v.items|
    ensures DecodeItems(RenderItems(v, from) + [LOWER_E] + r)
         == Ok((NormaliseFrom(v, from), |RenderItems(v, from)| + 1))
    decreases v, 0, |v.items| - from
  {
    hide DecodeValue, Render, DecodeItems, Normalise;
    if from == |v.items| {
      assert [] + [LOWER_E] + r == [LOWER_E] + r;
      EndStep([LOWER_E] + r);
      assert NormaliseFrom(v, from) == [];
    } else {
      var item := v.items[from];
      var a, b := Render(item), RenderItems(v, from + 1);
      var end := b + [LOWER_E] + r;
      assert (a + b) + [LOWER_E] + r == a + end;
      RoundTrip(item, end);
      RenderStartsAValue(item);
      ItemsRoundTrip(v, from + 1, r);
      ItemsStep(a, end, Normalise(item), NormaliseFrom(v, from + 1), |b| + 1);
      assert NormaliseFrom(v, from) == [Normalise(item)] + NormaliseFrom(v, from + 1);
    }
  }

  lemma {:induction false} EntriesRoundTrip(v: Any, keys: seq<Bytes>, r: Bytes)
    requires v.Dict? && Encodable(v) && Representable(v) && forall k :: k in keys ==> k in v.entries
    ensures DecodeEntries(RenderEntries(v, keys) + [LOWER_E] + r)
         == Ok((NormaliseUnder(v, keys), |RenderEntries(v, keys)| + 1))
    decreases v, 0, |keys|
  {
    hide DecodeValue, Render, DecodeEntries, NormaliseUnder, RenderString, Representable, Encodable;
    NormaliseUnderStep(v, keys);
    if keys == [] {
      assert [] + [LOWER_E] + r == [LOWER_E] + r;
      EndStep([LOWER_E] + r);
    } else {
      var key, value := keys[0], v.entries[keys[0]];
      EntryFacts(v, key);
      var a, b, c := RenderString(key), Render(value), RenderEntries(v, keys[1..]);
      var end := c + [LOWER_E] + r;
      assert (a + b + c) + [LOWER_E] + r == a + (b + end);
      StringRoundTrip(key, b + end);
      RoundTrip(value, end);
      EntriesRoundTrip(v, keys[1..], r);
      EntriesStep(a, b, end, key, Normalise(value), NormaliseUnder(v, keys[1..]), |c| + 1);
    }
  }

  lemma EntryFacts(v: Any, key: Bytes)
    requires v.Dict? && Encodable(v) && Representable(v) && key in v.entries
    ensures |key| <= INT64_MAX && Encodable(v.entries[key]) && Representable(v.entries[key])
  {
  }

  lemma NormaliseUnderStep(v: Any, keys: seq<Bytes>)
    requires v.Dict? && forall k :: k in keys ==> k in v.entries
    ensures keys == [] ==> NormaliseUnder(v, keys) == map[]
    ensures keys != [] ==>
              NormaliseUnder(v, keys) == map[keys[0] := Normalise(v.entries[keys[0]])] + NormaliseUnder(v, keys[1..])
  {
    hide Normalise;
    if keys != [] { assert keys == [keys[0]] + keys[1..]; }
  }

  /** An encoding is never empty and never starts with the `e` that closes a list. */
  lemma {:induction false} RenderStartsAValue(v: Any)
    requires Encodable(v) && Representable(v)
    ensures Render(v) != [] && Render(v)[0] != LOWER_E
  {
    match v
    case Str(s) => StringRoundTrip(s, []);
    case Slice(b) => StringRoundTrip(b, []);
    case _ =>
  }

  /** What Encode writes for two values is the same exactly when they decode to the same value. */
  lemma {:induction false} EncodingIdentifiesValues(v: Any, w: Any)
    requires Encodable(v) && Representable(v) && Encodable(w) && Representable(w)
    ensures Render(v) == Render(w) <==> Normalise(v) == Normalise(w)
  {
    RoundTrip(v, []);
    RoundTrip(w, []);
    if Normalise(v) == Normalise(w) {
      NormaliseKeepsEncoding(v);
      NormaliseKeepsEncoding(w);
    }
  }

  lemma {:induction false} NormaliseKeepsEncoding(v: Any)
    requires Encodable(v)
    ensures Encodable(Normalise(v)) && Render(Normalise(v)) == Render(v)
    decreases v
  {
    match v
    case List(items) =>
      forall i | 0 <= i < |items|
        ensures Encodable(Normalise(items[i])) && Render(Normalise(items[i])) == Render(items[i])
      {
        NormaliseKeepsEncoding(items[i]);
      }
      ItemsRenderAlike(v, Normalise(v), 0);
    case Dict(m) =>
      forall k | k in m ensures Encodable(Normalise(m[k])) && Render(Normalise(m[k])) == Render(m[k]) {
        NormaliseKeepsEncoding(m[k]);
      }
      assert Normalise(v).entries.Keys == m.Keys;
      EntriesRenderAlike(v, Normalise(v), SortedKeys(m.Keys));
    case _ =>
  }

  lemma {:induction false} ItemsRenderAlike(v: Any, w: Any, from: nat)
    requires v.List? && w.List? && Encodable(v) && Encodable(w)
    requires from <= |v.items| == |w.items|
    requires forall i :: 0 <= i < |v.items| ==> Render(v.items[i]) == Render(w.items[i])
    ensures RenderItems(v, from) == RenderItems(w, from)
    decreases |v.items| - from
  {
    hide Render;
    if from < |v.items| { ItemsRenderAlike(v, w, from + 1); }
  }

  lemma {:induction false} EntriesRenderAlike(v: Any, w: Any, keys: seq<Bytes>)
    requires v.Dict? && w.Dict? && Encodable(v) && Encodable(w)
    requires forall k :: k in keys ==> k in v.entries && k in w.entries
    requires forall k :: k in keys ==> Render(v.entries[k]) == Render(w.entries[k])
    ensures RenderEntries(v, keys) == RenderEntries(w, keys)
  {
    hide Render;
    if keys != [] { EntriesRenderAlike(v, w, keys[1..]); }
  }

  // ---- Locality ----

  lemma {:induction false} FindEIsLocal(s: Bytes, t: Bytes, n: nat)
    requires FindE(s).Some? && FindE(s).value < n <= |s|
    ensures FindE(s[..n] + t) == FindE(s)
  {
    if s[0] != LOWER_E {
      FindEIsLocal(s[1..], t, n - 1);
      assert (s[..n] + t)[1..] == s[1..][..n - 1] + t;
    }
  }

  lemma {:induction false} ScanLengthIsLocal(s: Bytes, t: Bytes, n: nat)
    requires ScanLength(s).Ok? && ScanLength(s).value < n <= |s|
    ensures ScanLength(s[..n] + t) == ScanLength(s)
  {
    if s[0] != COLON {
      ScanLengthIsLocal(s[1..], t, n - 1);
      assert (s[..n] + t)[1..] == s[1..][..n - 1] + t;
    }
  }

  lemma {:induction false} StringIsLocal(s: Bytes, t: Bytes)
    requires DecodeString(s).Ok?
    ensures DecodeString(s[..DecodeString(s).value.1] + t) == DecodeString(s)
  {
    var (text, n) := DecodeString(s).value;
    ScanLengthIsLocal(s, t, n);
    var k := ScanLength(s).value;
    var s' := s[..n] + t;
    assert s'[..k] == s[..k];
    assert s'[k + 1..n] == s[k + 1..n];
  }

  lemma {:induction false} IntIsLocal(s: Bytes, t: Bytes)
    requires DecodeInt(s).Ok?
    ensures DecodeInt(s[..DecodeInt(s).value.1] + t) == DecodeInt(s)
  {
    var n := DecodeInt(s).value.1;
    FindEIsLocal(s, t, n);
    assert (s[..n] + t)[..n - 1] == s[..n - 1];
  }

  /** A successful decode looks at nothing beyond the bytes it consumes. */
  lemma {:induction false} DecodeIsLocal(s: Bytes, t: Bytes)
    requires DecodeValue(s).Ok?
    ensures DecodeValue(s[..DecodeValue(s).value.1] + t) == DecodeValue(s)
    decreases |s|, 0
  {
    hide DecodeInt, DecodeString, DecodeItems, DecodeEntries;
    var n := DecodeValue(s).value.1;
    var s' := s[..n] + t;
    assert s'[0] == s[0];
    assert s'[1..] == s[1..][..n - 1] + t;
    if s[0] == LOWER_I {
      IntIsLocal(s[1..], t);
    } else if s[0] == LOWER_L {
      ItemsAreLocal(s[1..], t);
    } else if s[0] == LOWER_D {
      EntriesAreLocal(s[1..], t);
    } else {
      StringIsLocal(s, t);
    }
  }

  lemma {:induction false} ItemsAreLocal(s: Bytes, t: Bytes)
    requires DecodeItems(s).Ok?
    ensures DecodeItems(s[..DecodeItems(s).value.1] + t) == DecodeItems(s)
    decreases |s|, 1
  {
    hide DecodeValue, DecodeItems;
    var n := DecodeItems(s).value.1;
    if s[0] == LOWER_E {
      EndStep(s);
      EndStep(s[..n] + t);
    } else {
      var v, k, rest, j := ItemsParts(s);
      var end := s[k..n] + t;
      DecodeIsLocal(s, end);
      ItemsAreLocal(s[k..], t);
      assert s[k..][..j] + t == end;
      ItemsStep(s[..k], end, v, rest, j);
      assert s[..n] + t == s[..k] + end;
    }
  }

  lemma {:induction false} EntriesAreLocal(s: Bytes, t: Bytes)
    requires DecodeEntries(s).Ok?
    ensures DecodeEntries(s[..DecodeEntries(s).value.1] + t) == DecodeEntries(s)
    decreases |s|, 1
  {
    hide DecodeValue, DecodeEntries;
    var n := DecodeEntries(s).value.1;
    if s[0] == LOWER_E {
      EndStep(s);
      EndStep(s[..n] + t);
    } else {
      var key, k, v, m, rest, j := EntriesParts(s);
      var a, b, end := s[..k], s[k..k + m], s[k + m..n] + t;
      DecodeIsLocal(s, b + end);
      DecodeIsLocal(s[k..], end);
      assert s[k..][..m] == b;
      EntriesAreLocal(s[k + m..], t);
      assert s[k + m..][..j] + t == end;
      EntriesStep(a, b, end, key, v, rest, j);
      assert s[..n] + t == a + (b + end);
    }
  }

  /** No proper prefix of a decodable text decodes: the format needs no framing. */
  lemma {:induction false} DecodeIsPrefixFree(s: Bytes, m: nat)
    requires DecodeValue(s).Ok? && m < DecodeValue(s).value.1
    ensures DecodeValue(s[..m]).Err?
  {
    if DecodeValue(s[..m]).Ok? {
      var k := DecodeValue(s[..m]).value.1;
      assert s == s[..m][..k] + s[k..];
      DecodeIsLocal(s[..m], s[k..]);
      assert false;
    }
  }

  // ---- Whatever is accepted has a canonical form ----

  /** A decoded value is one that decoding leaves alone. */
  ghost predicate Normal(v: Any) { Encodable(v) && Representable(v) && Normalise(v) == v }

  lemma ListIsNormal(items: seq<Any>)
    requires forall v :: v in items ==> Normal(v)
    ensures Normal(List(items))
  {
    assert forall i :: 0 <= i < |items| ==> items[i] in items && Normal(items[i]);
    assert Normalise(List(items)).items == items;
  }

  lemma DictIsNormal(m: map<Bytes, Any>)
    requires forall k :: k in m ==> |k| <= INT64_MAX && Normal(m[k])
    ensures Normal(Dict(m))
  {
    assert forall k :: k in m ==> Normal(m[k]);
    assert Normalise(Dict(m)).entries == m;
  }

  lemma PlainIsNormal(n: int, t: Bytes)
    ensures INT64_MIN <= n <= INT64_MAX ==> Normal(Int64(n))
    ensures |t| <= INT64_MAX ==> Normal(Str(t))
  {
  }

  lemma {:induction false} DecodedIsNormal(s: Bytes)
    requires DecodeValue(s).Ok?
    ensures Normal(DecodeValue(s).value.0)
    decreases |s|, 0
  {
    hide DecodeInt, DecodeString, DecodeItems, DecodeEntries, Normal;
    if s[0] == LOWER_L {
      ItemsAreNormal(s[1..]);
      ListIsNormal(DecodeItems(s[1..]).value.0);
    } else if s[0] == LOWER_D {
      EntriesAreNormal(s[1..]);
      DictIsNormal(DecodeEntries(s[1..]).value.0);
    } else if s[0] == LOWER_I {
      IntInRange(s[1..]);
      PlainIsNormal(DecodeInt(s[1..]).value.0, []);
    } else {
      PlainIsNormal(0, DecodeString(s).value.0);
    }
  }

  lemma IntInRange(s: Bytes)
    ensures DecodeInt(s).Ok? ==> INT64_MIN <= DecodeInt(s).value.0 <= INT64_MAX
  {
  }

  lemma {:induction false} ItemsAreNormal(s: Bytes)
    requires DecodeItems(s).Ok?
    ensures forall v :: v in DecodeItems(s).value.0 ==> Normal(v)
    decreases |s|, 1
  {
    if s[0] != LOWER_E {
      DecodedIsNormal(s);
      ItemsAreNormal(s[DecodeValue(s).value.1..]);
    }
  }

  lemma {:induction false} EntriesAreNormal(s: Bytes)
    requires DecodeEntries(s).Ok?
    ensures forall k :: k in DecodeEntries(s).value.0 ==>
              |k| <= INT64_MAX && Normal(DecodeEntries(s).value.0[k])
    decreases |s|, 1
  {
    hide DecodeValue, Normalise, Encodable;
    if s[0] != LOWER_E {
      var key, k, v, m, rest, j := EntriesParts(s);
      DecodedIsNormal(s);
      assert |key| <= INT64_MAX;
      DecodedIsNormal(s[k..]);
      EntriesAreNormal(s[k + m..]);
    }
  }

  /** Whatever text the decoder accepts (unsorted or repeated keys, a plus sign, zeros after a sign,
      padded string lengths), its value encodes again, that text decodes to the same value whatever
      follows, and encoding once more writes the same bytes. */
  lemma {:induction false} DecodedReencodes(s: Bytes, r: Bytes)
    requires DecodeValue(s).Ok?
    ensures var v := DecodeValue(s).value.0;
            && Encode(v).Ok?
            && DecodeValue(Encode(v).value + r) == Ok((v, |Encode(v).value|))
            && Encode(DecodeValue(Encode(v).value + r).value.0) == Encode(v)
  {
    DecodedIsNormal(s);
    RoundTrip(DecodeValue(s).value.0, r);
  }
}
