/** The bencode format as a grammar: what the decoder accepts, with which meaning, and what the encoder
    writes, stated without the decoder and the encoder. */
module BencodeGrammar {
  import opened Prelude
  import opened Bencode
  import opened BencodeLaws

  /** How a text is put together. `sign` and `digits` are the parts of a number. */
  datatype Tree =
    | Number(sign: Bytes, digits: Bytes)
    | Text(digits: Bytes, text: Bytes)
    | Sequence(items: Trees)
    | Table(entries: Entries)

  datatype Trees = NoTrees | MoreTrees(head: Tree, tail: Trees)

  datatype Entries = NoEntries | MoreEntries(digits: Bytes, key: Bytes, value: Tree, rest: Entries)

  // ---- The text of a tree ----

  function Written(t: Tree): Bytes {
    match t
    case Number(sign, digits) => Chars("i") + sign + digits + Chars("e")
    case Text(digits, text) => digits + Chars(":") + text
    case Sequence(items) => Chars("l") + WrittenItems(items) + Chars("e")
    case Table(entries) => Chars("d") + WrittenEntries(entries) + Chars("e")
  }

  function WrittenItems(ts: Trees): Bytes {
    match ts case NoTrees => [] case MoreTrees(t, rest) => Written(t) + WrittenItems(rest)
  }

  function WrittenEntries(es: Entries): Bytes {
    match es
    case NoEntries => []
    case MoreEntries(digits, key, value, rest) => digits + Chars(":") + key + Written(value) + WrittenEntries(rest)
  }

  // ---- The meaning of a tree ----

  function Signed(sign: Bytes, digits: Bytes): int
    requires AllDigits(digits)
  {
    if sign == Chars("-") then -(DigitsValue(digits) as int) else DigitsValue(digits)
  }

  /** An integer of 64 bits without leading zeros, though a sign may stand before them, and not `-0`. */
  predicate GoodNumber(sign: Bytes, digits: Bytes) {
    && (sign == [] || sign == Chars("-") || sign == Chars("+"))
    && digits != [] && AllDigits(digits) && INT64_MIN <= Signed(sign, digits) <= INT64_MAX
    && !(sign == [] && |digits| > 1 && digits[0] == ZERO)
    && !(sign == Chars("-") && digits == Chars("0"))
  }

  predicate GoodText(digits: Bytes, text: Bytes) {
    digits != [] && AllDigits(digits) && DigitsValue(digits) == |text| <= INT64_MAX
  }

  predicate Good(t: Tree) {
    match t
    case Number(sign, digits) => GoodNumber(sign, digits)
    case Text(digits, text) => GoodText(digits, text)
    case Sequence(items) => GoodItems(items)
    case Table(entries) => GoodEntries(entries)
  }

  predicate GoodItems(ts: Trees) {
    match ts case NoTrees => true case MoreTrees(t, rest) => Good(t) && GoodItems(rest)
  }

  predicate GoodEntries(es: Entries) {
    match es
    case NoEntries => true
    case MoreEntries(digits, key, value, rest) => GoodText(digits, key) && Good(value) && GoodEntries(rest)
  }

  function Meaning(t: Tree): Any
    requires Good(t)
  {
    match t
    case Number(sign, digits) => Int64(Signed(sign, digits))
    case Text(_, text) => Str(text)
    case Sequence(items) => List(MeaningItems(items))
    case Table(entries) => Dict(MeaningEntries(entries))
  }

  function MeaningItems(ts: Trees): seq<Any>
    requires GoodItems(ts)
  {
    match ts case NoTrees => [] case MoreTrees(t, rest) => [Meaning(t)] + MeaningItems(rest)
  }

  /** A later entry wins. */
  function MeaningEntries(es: Entries): map<Bytes, Any>
    requires GoodEntries(es)
  {
    match es
    case NoEntries => map[]
    case MoreEntries(_, key, value, rest) => map[key := Meaning(value)] + MeaningEntries(rest)
  }

  // ---- Digits ----

  function Pow10(n: nat): nat { if n == 0 then 1 else 10 * Pow10(n - 1) }

  /** Digits are read in the decimal system, the first the most significant. */
  lemma {:induction false} DigitsArePositional(a: Bytes, b: Bytes)
    requires AllDigits(a) && AllDigits(b)
    ensures AllDigits(a + b) && DigitsValue(a + b) == DigitsValue(a) * Pow10(|b|) + DigitsValue(b)
    decreases |b|
  {
    if b == [] {
      assert a + b == a;
    } else {
      var front, last := b[..|b| - 1], b[|b| - 1];
      DigitsArePositional(a, front);
      assert (a + b)[..|a + b| - 1] == a + front;
      Tenfold(DigitsValue(a), Pow10(|front|));
    }
  }

  lemma Tenfold(x: nat, p: nat)
    ensures x * (10 * p) == 10 * (x * p)
  {
  }

  lemma DigitMeans(d: byte)
    requires IsDigit(d)
    ensures AllDigits([d]) && DigitsValue([d]) == (d - 48) as nat && d == ZERO + (d - 48)
  {
    assert [d][..0] == [];
  }

  // ---- Every good tree decodes ----

  lemma Marks()
    ensures Chars("i") == [LOWER_I] && Chars("l") == [LOWER_L] && Chars("d") == [LOWER_D] && Chars("e") == [LOWER_E]
    ensures Chars(":") == [COLON] && Chars("-") == [MINUS] && Chars("+") == [PLUS] && Chars("0") == [ZERO]
  {
  }

  /** The number tokens that the decoder accepts are exactly the good ones. */
  lemma {:induction false} TokenParses(sign: Bytes, digits: Bytes)
    requires GoodNumber(sign, digits)
    ensures ParseIntToken(sign + digits) == Ok(Signed(sign, digits))
  {
    hide DigitsValue;
    Marks();
    var t := sign + digits;
    if sign == [] {
      assert t == digits;
      assert IsDigit(digits[0]);
    } else {
      assert |sign| == 1 && t[0] == sign[0] && t[1..] == digits;
      assert sign == [MINUS] ==> t[1..] != [ZERO];
    }
  }

  lemma {:induction false} ParsedToken(t: Bytes) returns (sign: Bytes, digits: Bytes)
    requires ParseIntToken(t).Ok?
    ensures t == sign + digits && GoodNumber(sign, digits) && ParseIntToken(t) == Ok(Signed(sign, digits))
  {
    hide DigitsValue;
    Marks();
    if t[0] == MINUS || t[0] == PLUS {
      sign, digits := t[..1], t[1..];
      assert sign == [t[0]];
      assert sign + [ZERO] == [t[0], ZERO];
    } else {
      sign, digits := [], t;
    }
  }

  lemma NoEndInToken(sign: Bytes, digits: Bytes)
    requires GoodNumber(sign, digits)
    ensures forall i :: 0 <= i < |sign + digits| ==> (sign + digits)[i] != LOWER_E
  {
    hide DigitsValue;
    Marks();
  }

  lemma {:induction false} NumberDecodes(sign: Bytes, digits: Bytes, r: Bytes)
    requires GoodNumber(sign, digits)
    ensures var t := Chars("i") + sign + digits + Chars("e");
            DecodeValue(t + r) == Ok((Int64(Signed(sign, digits)), |t|))
  {
    hide DecodeValue, ParseIntToken, FindE, GoodNumber, DigitsValue, Chars;
    Marks();
    var token := sign + digits;
    TokenParses(sign, digits);
    NoEndInToken(sign, digits);
    FindESkips(token, r);
    var s := Chars("i") + sign + digits + Chars("e") + r;
    assert s == [LOWER_I] + (token + [LOWER_E] + r);
    assert s[1..] == token + [LOWER_E] + r;
    assert s[1..][..|token|] == token;
    ValueStep(s);
  }

  lemma {:induction false} TextDecodes(digits: Bytes, text: Bytes, r: Bytes)
    requires GoodText(digits, text)
    ensures var t := digits + Chars(":") + text;
            && DecodeString(t + r) == Ok((text, |t|)) && DecodeValue(t + r) == Ok((Str(text), |t|))
            && IsDigit((t + r)[0])
  {
    hide DecodeValue, ScanLength, DigitsValue, Chars;
    Marks();
    StringParts(digits, text, r);
    ScanLengthSkips(digits, text + r);
    assert IsDigit(digits[0]);
    ValueStep(digits + [COLON] + text + r);
  }

  lemma {:induction false} TreeDecodes(t: Tree, r: Bytes)
    requires Good(t)
    ensures Written(t) != [] && Written(t)[0] != LOWER_E
    ensures DecodeValue(Written(t) + r) == Ok((Meaning(t), |Written(t)|))
    decreases t
  {
    hide DecodeValue, DecodeItems, DecodeEntries, DecodeString, Chars, WrittenItems, WrittenEntries, GoodNumber, DigitsValue;
    Marks();
    var s := Written(t) + r;
    match t
    case Number(sign, digits) => NumberDecodes(sign, digits, r);
    case Text(digits, text) =>
      TextDecodes(digits, text, r);
      assert s[0] == Written(t)[0];
    case Sequence(items) =>
      ItemsDecode(items, r);
      assert s[1..] == WrittenItems(items) + [LOWER_E] + r;
      ValueStep(s);
    case Table(entries) =>
      EntriesDecode(entries, r);
      assert s[1..] == WrittenEntries(entries) + [LOWER_E] + r;
      ValueStep(s);
  }

  lemma {:induction false} ItemsDecode(ts: Trees, r: Bytes)
    requires GoodItems(ts)
    ensures DecodeItems(WrittenItems(ts) + [LOWER_E] + r) == Ok((MeaningItems(ts), |WrittenItems(ts)| + 1))
    decreases ts
  {
    hide DecodeValue, DecodeItems, Written;
    match ts
    case NoTrees =>
      assert WrittenItems(ts) + [LOWER_E] + r == [LOWER_E] + r;
      EndStep([LOWER_E] + r);
    case MoreTrees(t, rest) =>
      var end := WrittenItems(rest) + [LOWER_E] + r;
      TreeDecodes(t, end);
      ItemsDecode(rest, r);
      ItemsStep(Written(t), end, Meaning(t), MeaningItems(rest), |WrittenItems(rest)| + 1);
      assert WrittenItems(ts) + [LOWER_E] + r == Written(t) + end;
  }

  /** One entry more. */
  lemma EntryAdded(digits: Bytes, key: Bytes, value: Tree, rest: Entries)
    requires GoodText(digits, key) && Good(value) && GoodEntries(rest)
    ensures var es := MoreEntries(digits, key, value, rest);
            && GoodEntries(es) && MeaningEntries(es) == map[key := Meaning(value)] + MeaningEntries(rest)
            && WrittenEntries(es) == digits + [COLON] + key + Written(value) + WrittenEntries(rest)
  {
    hide Good, Meaning, Written, GoodText, Chars;
    Marks();
  }

  lemma EntryParts(es: Entries)
    requires GoodEntries(es) && es.MoreEntries?
    ensures GoodText(es.digits, es.key) && Good(es.value) && GoodEntries(es.rest)
  {
    hide Good, GoodText;
  }

  lemma NoEntriesDecode(r: Bytes)
    ensures GoodEntries(NoEntries) && DecodeEntries(WrittenEntries(NoEntries) + [LOWER_E] + r)
            == Ok((MeaningEntries(NoEntries), |WrittenEntries(NoEntries)| + 1))
  {
    assert [] + [LOWER_E] + r == [LOWER_E] + r;
    EndStep([LOWER_E] + r);
  }

  lemma Regroup(a: Bytes, w: Bytes, c: Bytes, r: Bytes)
    ensures a + w + c + [LOWER_E] + r == a + (w + (c + [LOWER_E] + r))
  {
  }

  lemma {:induction false} EntriesDecode(es: Entries, r: Bytes)
    requires GoodEntries(es)
    ensures DecodeEntries(WrittenEntries(es) + [LOWER_E] + r) == Ok((MeaningEntries(es), |WrittenEntries(es)| + 1))
    decreases es
  {
    hide DecodeValue, DecodeEntries, DecodeString, Written, Meaning, Good, GoodText, Chars, WrittenEntries, MeaningEntries, GoodEntries;
    if es.NoEntries? {
      NoEntriesDecode(r);
    } else {
      EntryParts(es);
      EntryAdded(es.digits, es.key, es.value, es.rest);
      var end := WrittenEntries(es.rest) + [LOWER_E] + r;
      var a, w := es.digits + [COLON] + es.key, Written(es.value);
      Marks();
      TextDecodes(es.digits, es.key, w + end);
      TreeDecodes(es.value, end);
      EntriesDecode(es.rest, r);
      FirstOf(a, w + end);
      EntriesStep(a, w, end, es.key, Meaning(es.value), MeaningEntries(es.rest), |WrittenEntries(es.rest)| + 1);
      Regroup(a, w, WrittenEntries(es.rest), r);
    }
  }

  lemma FirstOf(a: Bytes, b: Bytes)
    ensures a != [] ==> (a + b)[0] == a[0]
  {
  }

  // ---- Everything that decodes is a good tree ----

  lemma {:induction false} FoundTokenHasParts(s: Bytes) returns (sign: Bytes, digits: Bytes)
    requires DecodeInt(s).Ok?
    ensures GoodNumber(sign, digits) && DecodeInt(s).value.0 == Signed(sign, digits)
    ensures |sign + digits| + 1 == DecodeInt(s).value.1 && s[..|sign + digits| + 1] == sign + digits + Chars("e")
  {
    hide ParseIntToken, FindE, GoodNumber, DigitsValue, Chars;
    Marks();
    var k := FindE(s).value;
    sign, digits := ParsedToken(s[..k]);
    assert s[..k + 1] == s[..k] + [s[k]];
  }

  lemma {:induction false} TextHasParts(s: Bytes) returns (digits: Bytes)
    requires DecodeString(s).Ok?
    ensures var (text, n) := DecodeString(s).value;
            GoodText(digits, text) && n == |digits| + 1 + |text| && s[..n] == digits + Chars(":") + text
  {
    hide ScanLength, DigitsValue, Chars;
    Marks();
    var k := ScanLength(s).value;
    digits := s[..k];
    var n := DigitsValue(digits);
    assert s[..k + 1 + n] == s[..k] + [s[k]] + s[k + 1..k + 1 + n];
  }

  lemma {:induction false} DecodedHasTree(s: Bytes) returns (t: Tree)
    requires DecodeValue(s).Ok?
    ensures Good(t) && Meaning(t) == DecodeValue(s).value.0
    ensures |Written(t)| == DecodeValue(s).value.1 && s[..|Written(t)|] == Written(t)
    decreases |s|, 0
  {
    hide DecodeInt, DecodeString, DecodeItems, DecodeEntries, GoodNumber, GoodText, Chars, DigitsValue;
    Marks();
    if s[0] == LOWER_I {
      var sign, digits := FoundTokenHasParts(s[1..]);
      t := Number(sign, digits);
      OneMore(s, |sign + digits| + 1);
      assert Written(t) == [LOWER_I] + (sign + digits + [LOWER_E]);
    } else if s[0] == LOWER_L {
      var items := ItemsHaveTrees(s[1..]);
      t := Sequence(items);
      OneMore(s, |WrittenItems(items)| + 1);
      assert Written(t) == [LOWER_L] + (WrittenItems(items) + [LOWER_E]);
    } else if s[0] == LOWER_D {
      var entries := EntriesHaveTrees(s[1..]);
      t := Table(entries);
      OneMore(s, |WrittenEntries(entries)| + 1);
      assert Written(t) == [LOWER_D] + (WrittenEntries(entries) + [LOWER_E]);
    } else {
      var digits := TextHasParts(s);
      t := Text(digits, DecodeString(s).value.0);
    }
  }

  lemma OneMore(s: Bytes, n: nat)
    requires 1 + n <= |s|
    ensures s[..1 + n] == [s[0]] + s[1..][..n]
  {
  }

  lemma {:induction false} ItemsHaveTrees(s: Bytes) returns (ts: Trees)
    requires DecodeItems(s).Ok?
    ensures GoodItems(ts) && MeaningItems(ts) == DecodeItems(s).value.0
    ensures |WrittenItems(ts)| + 1 == DecodeItems(s).value.1
    ensures s[..|WrittenItems(ts)| + 1] == WrittenItems(ts) + [LOWER_E]
    decreases |s|, 1
  {
    hide DecodeValue, Good, Meaning, Written;
    if s[0] == LOWER_E {
      ts := NoTrees;
    } else {
      var v, k, rest, n := ItemsParts(s);
      var t := DecodedHasTree(s);
      var more := ItemsHaveTrees(s[k..]);
      ts := MoreTrees(t, more);
      var w := |WrittenItems(more)| + 1;
      assert s[..k + w] == s[..k] + s[k..][..w];
    }
  }

  lemma NoEntriesEnd(s: Bytes)
    requires DecodeEntries(s).Ok? && s != [] && s[0] == LOWER_E
    ensures GoodEntries(NoEntries) && MeaningEntries(NoEntries) == DecodeEntries(s).value.0
    ensures WrittenEntries(NoEntries) == [] && DecodeEntries(s).value.1 == 1 && s[..1] == [LOWER_E]
  {
    NothingIsShort();
    EndIsShort(s);
  }

  lemma {:induction false} EntriesHaveTrees(s: Bytes) returns (es: Entries)
    requires DecodeEntries(s).Ok?
    ensures GoodEntries(es) && MeaningEntries(es) == DecodeEntries(s).value.0
    ensures |WrittenEntries(es)| + 1 == DecodeEntries(s).value.1
    ensures s[..|WrittenEntries(es)| + 1] == WrittenEntries(es) + [LOWER_E]
    decreases |s|, 1
  {
    hide DecodeValue, DecodeEntries, Good, Meaning, Written, GoodText, Chars, WrittenEntries, MeaningEntries, GoodEntries;
    NothingIsShort();
    if s[0] == LOWER_E {
      NoEntriesEnd(s);
      es := NoEntries;
    } else {
      es := SomeEntries(s);
    }
  }

  lemma {:induction false} SomeEntries(s: Bytes) returns (es: Entries)
    requires DecodeEntries(s).Ok? && s != [] && s[0] != LOWER_E
    ensures GoodEntries(es) && MeaningEntries(es) == DecodeEntries(s).value.0
    ensures |WrittenEntries(es)| + 1 == DecodeEntries(s).value.1
    ensures s[..|WrittenEntries(es)| + 1] == WrittenEntries(es) + [LOWER_E]
    decreases |s|, 0
  {
    hide DecodeValue, DecodeEntries, Good, Meaning, Written, GoodText, Chars, WrittenEntries, MeaningEntries, GoodEntries;
    var key, k, v, m, rest, n := EntriesParts(s);
    var digits := KeyHasParts(s);
    var t := DecodedHasTree(s[k..]);
    var more := EntriesHaveTrees(s[k + m..]);
    Marks();
    EntryAdded(digits, key, t, more);
    es := MoreEntries(digits, key, t, more);
    ThreeParts(s, k, m, |WrittenEntries(more)| + 1);
    assert digits + [COLON] + key + Written(t) + (WrittenEntries(more) + [LOWER_E])
        == digits + [COLON] + key + Written(t) + WrittenEntries(more) + [LOWER_E];
  }

  lemma ThreeParts(s: Bytes, k: nat, m: nat, w: nat)
    requires k + m + w <= |s|
    ensures s[..k + m + w] == s[..k] + s[k..][..m] + s[k + m..][..w]
  {
  }

  lemma KeyHasParts(s: Bytes) returns (digits: Bytes)
    requires DecodeValue(s).Ok? && DecodeValue(s).value.0.Str?
    ensures var key, n := DecodeValue(s).value.0.s, DecodeValue(s).value.1;
            GoodText(digits, key) && n == |digits| + 1 + |key| && s[..n] == digits + Chars(":") + key
  {
    hide DecodeInt, DecodeItems, DecodeEntries, DecodeString, GoodText, Chars;
    digits := TextHasParts(s);
  }

  /** The decoder accepts exactly the texts of the grammar, with their meaning, and takes exactly their bytes. */
  lemma {:induction false} DecodesTheGrammar(s: Bytes, v: Any, n: nat)
    ensures DecodeValue(s) == Ok((v, n)) <==>
            exists t :: Good(t) && Meaning(t) == v && |Written(t)| == n <= |s| && s[..n] == Written(t)
  {
    hide DecodeValue, Good, Meaning, Written;
    if DecodeValue(s) == Ok((v, n)) {
      var t := DecodedHasTree(s);
    }
    if t :| Good(t) && Meaning(t) == v && |Written(t)| == n <= |s| && s[..n] == Written(t) {
      TreeDecodes(t, s[n..]);
      assert s == s[..n] + s[n..];
    }
  }

  // ---- What is cut short ----

  /** Every beginning of an acceptable text that is not the whole fails for want of input. */
  lemma {:induction false} CutShortIsEOF(s: Bytes, m: nat)
    requires DecodeValue(s).Ok? && m < DecodeValue(s).value.1
    ensures DecodeValue(s[..m]) == Err(UnexpectedEOF)
    decreases |s|, 0
  {
    hide DecodeInt, DecodeString, DecodeItems, DecodeEntries;
    if m > 0 {
      assert s[..m][0] == s[0] && s[..m][1..] == s[1..][..m - 1];
      if s[0] == LOWER_I {
        NumberCutShort(s[1..], m - 1);
      } else if s[0] == LOWER_L {
        ItemsCutShort(s[1..], m - 1);
      } else if s[0] == LOWER_D {
        EntriesCutShort(s[1..], m - 1);
      } else {
        TextCutShort(s, m);
      }
    }
  }

  lemma {:induction false} NoEndYet(s: Bytes, m: nat)
    requires FindE(s).Some? && m <= FindE(s).value
    ensures FindE(s[..m]) == None
  {
    if m > 0 {
      NoEndYet(s[1..], m - 1);
      assert s[..m][1..] == s[1..][..m - 1];
    }
  }

  lemma NumberCutShort(s: Bytes, m: nat)
    requires DecodeInt(s).Ok? && m < DecodeInt(s).value.1
    ensures DecodeInt(s[..m]) == Err(UnexpectedEOF)
  {
    hide FindE, ParseIntToken;
    NoEndYet(s, m);
  }

  lemma {:induction false} ScanCut(s: Bytes, m: nat)
    requires ScanLength(s).Ok? && m <= |s|
    ensures ScanLength(s[..m]) == if m <= ScanLength(s).value then Err(UnexpectedEOF) else ScanLength(s)
  {
    if m > 0 && s[0] != COLON {
      ScanCut(s[1..], m - 1);
      assert s[..m][1..] == s[1..][..m - 1];
    }
  }

  lemma {:induction false} TextCutShort(s: Bytes, m: nat)
    requires DecodeString(s).Ok? && m < DecodeString(s).value.1
    ensures DecodeString(s[..m]) == Err(UnexpectedEOF)
  {
    hide ScanLength, DigitsValue;
    ScanCut(s, m);
    var k := ScanLength(s).value;
    if m > k { assert s[..m][..k] == s[..k]; }
  }

  lemma ItemsFail(s: Bytes)
    requires s != [] && s[0] != LOWER_E
    ensures DecodeValue(s) == Err(UnexpectedEOF) ==> DecodeItems(s) == Err(UnexpectedEOF)
    ensures DecodeValue(s).Ok? && DecodeItems(s[DecodeValue(s).value.1..]) == Err(UnexpectedEOF) ==>
              DecodeItems(s) == Err(UnexpectedEOF)
  {
    hide DecodeValue;
  }

  lemma EntriesFail(s: Bytes)
    requires s != [] && s[0] != LOWER_E
    ensures DecodeValue(s) == Err(UnexpectedEOF) ==> DecodeEntries(s) == Err(UnexpectedEOF)
    ensures DecodeValue(s).Ok? && DecodeValue(s).value.0.Str? ==>
              var k := DecodeValue(s).value.1;
              && (DecodeValue(s[k..]) == Err(UnexpectedEOF) ==> DecodeEntries(s) == Err(UnexpectedEOF))
              && (DecodeValue(s[k..]).Ok? && DecodeEntries(s[k + DecodeValue(s[k..]).value.1..]) == Err(UnexpectedEOF) ==>
                    DecodeEntries(s) == Err(UnexpectedEOF))
  {
    hide DecodeValue;
  }

  lemma NothingIsShort()
    ensures DecodeItems([]) == Err(UnexpectedEOF) && DecodeEntries([]) == Err(UnexpectedEOF)
  {
  }

  lemma EndIsShort(s: Bytes)
    ensures s != [] && s[0] == LOWER_E ==> DecodeItems(s) == Ok(([], 1)) && DecodeEntries(s) == Ok((map[], 1))
  {
  }

  lemma {:induction false} ItemsCutShort(s: Bytes, m: nat)
    requires DecodeItems(s).Ok? && m < DecodeItems(s).value.1
    ensures DecodeItems(s[..m]) == Err(UnexpectedEOF)
    decreases |s|, 1
  {
    hide DecodeValue, DecodeItems;
    NothingIsShort();
    EndIsShort(s);
    if m > 0 {
      var v, k, rest, n := ItemsParts(s);
      assert s[..m][0] == s[0];
      ItemsFail(s[..m]);
      if m < k {
        CutShortIsEOF(s, m);
      } else {
        DecodeIsLocal(s, s[k..m]);
        assert s[..k] + s[k..m] == s[..m];
        ItemsCutShort(s[k..], m - k);
        assert s[..m][k..] == s[k..][..m - k];
      }
    }
  }

  lemma {:induction false} EntriesCutShort(s: Bytes, m: nat)
    requires DecodeEntries(s).Ok? && m < DecodeEntries(s).value.1
    ensures DecodeEntries(s[..m]) == Err(UnexpectedEOF)
    decreases |s|, 1
  {
    hide DecodeValue, DecodeEntries;
    NothingIsShort();
    EndIsShort(s);
    if m > 0 {
      var key, k, v, l, rest, n := EntriesParts(s);
      assert s[..m][0] == s[0];
      EntriesFail(s[..m]);
      if m < k {
        CutShortIsEOF(s, m);
      } else {
        DecodeIsLocal(s, s[k..m]);
        assert s[..k] + s[k..m] == s[..m];
        assert s[..m][k..] == s[k..][..m - k];
        if m < k + l {
          CutShortIsEOF(s[k..], m - k);
        } else {
          DecodeIsLocal(s[k..], s[k + l..m]);
          assert s[k..][..l] + s[k + l..m] == s[k..][..m - k];
          EntriesCutShort(s[k + l..], m - k - l);
          assert s[..m][k + l..] == s[k + l..][..m - k - l];
        }
      }
    }
  }

  /** What other failures are called. */
  lemma {:induction false} FailuresAreNamed(s: Bytes, token: Bytes, r: Bytes)
    ensures DecodeValue([]) == Err(UnexpectedEOF)
    ensures s != [] && s[0] !in Chars("ild0123456789") ==> DecodeValue(s) == Err(InvalidFormat)
    ensures (forall i :: 0 <= i < |token| ==> token[i] != LOWER_E)
            && !(exists sign, digits :: token == sign + digits && GoodNumber(sign, digits)) ==>
              DecodeValue(Chars("i") + (token + Chars("e") + r)) == Err(InvalidInteger)
  {
    hide DecodeInt, DecodeString, DecodeItems, DecodeEntries, GoodNumber;
    Marks();
    if s != [] { FirstBytes(s[0]); }
    if (forall i :: 0 <= i < |token| ==> token[i] != LOWER_E)
       && !(exists sign, digits :: token == sign + digits && GoodNumber(sign, digits))
    {
      BadNumber(token, r);
      assert (Chars("i") + (token + Chars("e") + r))[1..] == token + [LOWER_E] + r;
    }
  }

  /** A length that is not a number of digits before the colon, or too large, is an invalid string. */
  lemma {:induction false} BadLengthIsNamed(digits: Bytes, b: byte, r: Bytes)
    requires digits != [] && AllDigits(digits)
    ensures !IsDigit(b) && b != COLON ==> DecodeValue(digits + [b] + r) == Err(InvalidString)
    ensures DigitsValue(digits) > INT64_MAX ==> DecodeValue(digits + [COLON] + r) == Err(InvalidString)
  {
    hide ScanLength, DigitsValue;
    if !IsDigit(b) && b != COLON { ScanStops(digits, b, r); }
    ScanLengthSkips(digits, r);
    assert (digits + [COLON] + r)[..|digits|] == digits;
    assert IsDigit(digits[0]) && (digits + [COLON] + r)[0] == digits[0] && (digits + [b] + r)[0] == digits[0];
  }

  lemma {:induction false} ScanStops(digits: Bytes, b: byte, r: Bytes)
    requires AllDigits(digits) && !IsDigit(b) && b != COLON
    ensures ScanLength(digits + [b] + r) == Err(InvalidString)
  {
    var s := digits + [b] + r;
    if digits != [] {
      ScanStops(digits[1..], b, r);
      assert s[1..] == digits[1..] + [b] + r;
    }
  }

  lemma FirstBytes(b: byte)
    ensures b in Chars("ild0123456789") <==> b == LOWER_I || b == LOWER_L || b == LOWER_D || IsDigit(b)
  {
    var c := Chars("ild0123456789");
    assert c == [105, 108, 100, 48, 49, 50, 51, 52, 53, 54, 55, 56, 57];
  }

  lemma BadNumber(token: Bytes, r: Bytes)
    requires forall i :: 0 <= i < |token| ==> token[i] != LOWER_E
    requires !(exists sign, digits :: token == sign + digits && GoodNumber(sign, digits))
    ensures DecodeInt(token + [LOWER_E] + r) == Err(InvalidInteger)
  {
    hide FindE, GoodNumber, ParseInt64;
    FindESkips(token, r);
    assert (token + [LOWER_E] + r)[..|token|] == token;
    if ParseIntToken(token).Ok? { var sign, digits := ParsedToken(token); }
  }

  // ---- What the encoder writes ----

  /** The order of Go's strings: at the first difference the smaller byte first, or the one that ends there. */
  ghost predicate Before(a: Bytes, b: Bytes) {
    exists k: nat :: k <= |a| && k < |b| && a[..k] == b[..k] && (k == |a| || a[k] < b[k])
  }

  lemma {:induction false} LessMeans(a: Bytes, b: Bytes)
    ensures Less(a, b) <==> Before(a, b)
  {
    if b == [] {
    } else if a == [] {
      assert a[..0] == b[..0];
    } else {
      LessMeans(a[1..], b[1..]);
      if Less(a, b) {
        if a[0] < b[0] {
          assert a[..0] == b[..0];
        } else {
          var k: nat :| k <= |a[1..]| && k < |b[1..]| && a[1..][..k] == b[1..][..k] && (k == |a[1..]| || a[1..][k] < b[1..][k]);
          assert a[..k + 1] == [a[0]] + a[1..][..k] && b[..k + 1] == [b[0]] + b[1..][..k];
        }
      }
      if Before(a, b) {
        var k: nat :| k <= |a| && k < |b| && a[..k] == b[..k] && (k == |a| || a[k] < b[k]);
        if k > 0 {
          assert a[..k][0] == b[..k][0];
          assert a[1..][..k - 1] == a[..k][1..] && b[1..][..k - 1] == b[..k][1..];
          assert k - 1 <= |a[1..]| && k - 1 < |b[1..]| && (k - 1 == |a[1..]| || a[1..][k - 1] < b[1..][k - 1]);
        }
      }
    }
  }

  predicate PlainDigits(digits: Bytes) { digits != [] && (|digits| > 1 ==> digits[0] != ZERO) }

  /** No needless sign or zero, and the keys of every dictionary in strictly ascending order. */
  ghost predicate Canonical(t: Tree) {
    match t
    case Number(sign, digits) => sign != Chars("+") && PlainDigits(digits)
    case Text(digits, _) => PlainDigits(digits)
    case Sequence(items) => CanonicalItems(items)
    case Table(entries) => CanonicalEntries(entries)
  }

  ghost predicate CanonicalItems(ts: Trees) {
    match ts case NoTrees => true case MoreTrees(t, rest) => Canonical(t) && CanonicalItems(rest)
  }

  ghost predicate CanonicalEntries(es: Entries) {
    match es
    case NoEntries => true
    case MoreEntries(digits, key, value, rest) =>
      && PlainDigits(digits) && Canonical(value) && CanonicalEntries(rest)
      && (rest.MoreEntries? ==> Before(key, rest.key))
  }

  ghost function TreeOf(v: Any): Tree
    requires Encodable(v)
    decreases v, 1, 0
  {
    match v
    case Int(n) => NumberOf(n)
    case Int64(n) => NumberOf(n)
    case Str(s) => Text(FormatNat(|s|), s)
    case Slice(b) => Text(FormatNat(|b|), b)
    case List(_) => Sequence(ItemTrees(v, 0))
    case Dict(m) => Table(EntryTrees(v, SortedKeys(m.Keys)))
  }

  function NumberOf(n: int): Tree {
    if n < 0 then Number(Chars("-"), FormatNat(-n)) else Number([], FormatNat(n))
  }

  ghost function ItemTrees(v: Any, from: nat): Trees
    requires v.List? && Encodable(v) && from <= |v.items|
    decreases v, 0, |v.items| - from
  {
    if from == |v.items| then NoTrees else MoreTrees(TreeOf(v.items[from]), ItemTrees(v, from + 1))
  }

  ghost function EntryTrees(v: Any, keys: seq<Bytes>): Entries
    requires v.Dict? && Encodable(v) && forall k :: k in keys ==> k in v.entries
    decreases v, 0, |keys|
  {
    if keys == [] then NoEntries
    else MoreEntries(FormatNat(|keys[0]|), keys[0], TreeOf(v.entries[keys[0]]), EntryTrees(v, keys[1..]))
  }

  lemma {:induction false} FormatIsPlain(n: nat)
    ensures AllDigits(FormatNat(n)) && DigitsValue(FormatNat(n)) == n && PlainDigits(FormatNat(n))
    ensures n > 0 ==> FormatNat(n) != Chars("0")
  {
    hide FormatNat;
    Marks();
    FormatNatParses(n);
    assert AllDigits([ZERO]) && DigitsValue([ZERO]) == 0 by { DigitMeans(ZERO); }
  }

  lemma {:induction false} NumberOfMeans(n: int)
    requires INT64_MIN <= n <= INT64_MAX
    ensures Good(NumberOf(n)) && Canonical(NumberOf(n)) && Meaning(NumberOf(n)) == Int64(n)
    ensures Written(NumberOf(n)) == [LOWER_I] + FormatInt(n) + [LOWER_E]
  {
    hide FormatNat, DigitsValue, PlainDigits;
    Marks();
    FormatIsPlain(if n < 0 then -n else n);
    assert PlainDigits(FormatNat(if n < 0 then -n else n)) ==>
           FormatNat(if n < 0 then -n else n) != [] && (|FormatNat(if n < 0 then -n else n)| > 1 ==>
             FormatNat(if n < 0 then -n else n)[0] != ZERO) by { PlainMeans(FormatNat(if n < 0 then -n else n)); }
    assert [LOWER_I] + [] + FormatNat(if n < 0 then -n else n) == [LOWER_I] + FormatNat(if n < 0 then -n else n);
    assert [LOWER_I] + ([MINUS] + FormatNat(if n < 0 then -n else n)) == [LOWER_I] + [MINUS] + FormatNat(if n < 0 then -n else n);
  }

  lemma PlainMeans(digits: Bytes)
    ensures PlainDigits(digits) ==> digits != [] && (|digits| > 1 ==> digits[0] != ZERO)
  {
  }

  lemma TextOfMeans(s: Bytes)
    requires |s| <= INT64_MAX
    ensures GoodText(FormatNat(|s|), s) && PlainDigits(FormatNat(|s|))
    ensures FormatNat(|s|) + [COLON] + s == RenderString(s)
  {
    hide FormatNat, DigitsValue, PlainDigits, Chars;
    FormatIsPlain(|s|);
    assert FormatNat(|s|) != [];
  }

  lemma PlainText(s: Bytes)
    requires |s| <= INT64_MAX
    ensures var t := Text(FormatNat(|s|), s);
            Good(t) && Canonical(t) && Meaning(t) == Str(s) && Written(t) == RenderString(s)
  {
    hide FormatNat, PlainDigits, Chars, GoodText;
    Marks();
    TextOfMeans(s);
  }

  /** What Encode writes is the canonical text of the grammar for the normalised value: dictionaries have their
      keys in ascending order, numbers no needless sign or zero. */
  lemma {:induction false} EncodesCanonically(v: Any)
    requires Encodable(v) && Representable(v)
    ensures Good(TreeOf(v)) && Canonical(TreeOf(v)) && Meaning(TreeOf(v)) == Normalise(v)
    ensures Written(TreeOf(v)) == Render(v)
    decreases v, 2, 0
  {
    hide Good, Canonical, Meaning, Written, NumberOf, FormatInt, RenderString, FormatNat, RenderItems, RenderEntries,
         ItemTrees, EntryTrees;
    match v
    case Int(n) => NumberOfMeans(n);
    case Int64(n) => NumberOfMeans(n);
    case Str(s) => PlainText(s);
    case Slice(b) => PlainText(b);
    case List(_) => ListIsCanonical(v);
    case Dict(_) => DictIsCanonical(v);
  }

  lemma {:induction false} ListIsCanonical(v: Any)
    requires v.List? && Encodable(v) && Representable(v)
    ensures Good(TreeOf(v)) && Canonical(TreeOf(v)) && Meaning(TreeOf(v)) == Normalise(v)
    ensures Written(TreeOf(v)) == Render(v)
    decreases v, 1, |v.items| + 1
  {
    hide Chars, ItemTrees, GoodItems, MeaningItems, WrittenItems, CanonicalItems, RenderItems;
    Marks();
    ItemTreesMean(v, 0);
    assert Normalise(v).items == NormaliseFrom(v, 0);
  }

  lemma {:induction false} DictIsCanonical(v: Any)
    requires v.Dict? && Encodable(v) && Representable(v)
    ensures Good(TreeOf(v)) && Canonical(TreeOf(v)) && Meaning(TreeOf(v)) == Normalise(v)
    ensures Written(TreeOf(v)) == Render(v)
    decreases v, 1, |SortedKeys(v.entries.Keys)| + 1
  {
    hide Chars, EntryTrees, GoodEntries, MeaningEntries, WrittenEntries, CanonicalEntries, RenderEntries;
    Marks();
    var keys := SortedKeys(v.entries.Keys);
    EntryTreesMean(v, keys);
    assert Normalise(v).entries == NormaliseUnder(v, keys);
  }

  lemma {:induction false} ItemTreesMean(v: Any, from: nat)
    requires v.List? && Encodable(v) && Representable(v) && from <= |v.items|
    ensures GoodItems(ItemTrees(v, from)) && CanonicalItems(ItemTrees(v, from))
    ensures MeaningItems(ItemTrees(v, from)) == NormaliseFrom(v, from)
    ensures WrittenItems(ItemTrees(v, from)) == RenderItems(v, from)
    decreases v, 1, |v.items| - from
  {
    hide TreeOf, Render, Written, Good, Meaning, Canonical;
    if from < |v.items| {
      EncodesCanonically(v.items[from]);
      ItemTreesMean(v, from + 1);
    }
  }

  lemma CanonicalAdded(key: Bytes, value: Tree, rest: Entries)
    requires |key| <= INT64_MAX && Canonical(value) && CanonicalEntries(rest)
    requires rest.MoreEntries? ==> Before(key, rest.key)
    ensures CanonicalEntries(MoreEntries(FormatNat(|key|), key, value, rest))
  {
    hide Canonical, Before, FormatNat, PlainDigits;
    TextOfMeans(key);
  }

  lemma FirstKey(v: Any, keys: seq<Bytes>)
    requires v.Dict? && Encodable(v) && forall k :: k in keys ==> k in v.entries
    ensures var es := EntryTrees(v, keys); es.MoreEntries? <==> keys != []
    ensures var es := EntryTrees(v, keys); keys != [] ==> es.key == keys[0]
  {
    hide TreeOf;
  }

  lemma {:induction false} EntryTreesMean(v: Any, keys: seq<Bytes>)
    requires v.Dict? && Encodable(v) && Representable(v)
    requires forall k :: k in keys ==> k in v.entries
    requires StrictlySorted(keys)
    ensures GoodEntries(EntryTrees(v, keys)) && CanonicalEntries(EntryTrees(v, keys))
    ensures MeaningEntries(EntryTrees(v, keys)) == NormaliseUnder(v, keys)
    ensures WrittenEntries(EntryTrees(v, keys)) == RenderEntries(v, keys)
    decreases v, 1, |keys|
  {
    if keys == [] {
      assert NormaliseUnder(v, keys) == map[];
    } else {
      hide Good, Meaning, Written, Canonical, GoodEntries, MeaningEntries, WrittenEntries, CanonicalEntries, TreeOf, Render,
           GoodText, Before, RenderString, FormatNat, Less;
      var key, rest := keys[0], EntryTrees(v, keys[1..]);
      EncodesCanonically(v.entries[key]);
      TextOfMeans(key);
      EntryTreesMean(v, keys[1..]);
      EntryAdded(FormatNat(|key|), key, TreeOf(v.entries[key]), rest);
      FirstKey(v, keys[1..]);
      if |keys| > 1 { LessMeans(keys[0], keys[1]); }
      CanonicalAdded(key, TreeOf(v.entries[key]), rest);
      NormaliseUnderStep(v, keys);
    }
  }
}
