/** Info hashes in magnet links: the base32 bit accumulator and its meaning as a number. */
module Magnet {
  import opened Prelude

  type Bytes = seq<byte>

  datatype Error = MissingPrefix | BadHex | BadBase32 | BadLength

  const PREFIX: string := "urn:btih:"

  predicate Ascii(s: string) { forall i :: 0 <= i < |s| ==> s[i] < 128 as char }

  /** How many bytes a character takes in UTF-8. */
  function Width(c: char): nat {
    if c < 128 as char then 1 else if c < 0x800 as char then 2 else if c < 0x1_0000 as char then 3 else 4
  }

  /** Go's `len` of the text. */
  function ByteLength(s: string): nat {
    if s == [] then 0 else ByteLength(s[..|s| - 1]) + Width(s[|s| - 1])
  }

  /** strings.ToUpper on one character, as far as ASCII goes: the dotless i and the long s are the only
      characters outside ASCII that become a letter of ASCII; the others stay outside. */
  function Upper(c: char): char {
    if 'a' <= c <= 'z' then c - 'a' + 'A'
    else if c == '\U{0131}' then 'I'
    else if c == '\U{017F}' then 'S'
    else c
  }

  /** The position of a character in the alphabet of section 6 of RFC 4648. */
  function Digit32(c: char): (r: Option<nat>)
    ensures r.Some? ==> r.value < 32
  {
    if 'A' <= c <= 'Z' then Some((c - 'A') as nat)
    else if '2' <= c <= '7' then Some(26 + (c - '2') as nat)
    else None
  }

  function Char32(d: nat): char
    requires d < 32
  {
    if d < 26 then 'A' + d as char else '2' + (d - 26) as char
  }

  predicate IsBase32(s: string) { forall i :: 0 <= i < |s| ==> Digit32(Upper(s[i])).Some? }

  function Pow2(n: nat): (p: nat)
    ensures p > 0
  {
    if n == 0 then 1 else 2 * Pow2(n - 1)
  }

  /** Bytes read as one big-endian number. */
  function BytesNum(b: Bytes): nat {
    if b == [] then 0 else BytesNum(b[..|b| - 1]) * 256 + b[|b| - 1] as nat
  }

  function NumBytes(n: nat, count: nat): (b: Bytes)
    ensures |b| == count
  {
    if count == 0 then [] else NumBytes(n / 256, count - 1) + [(n % 256) as byte]
  }

  /** A base32 text read as one number, the first character the most significant. */
  function TextNum(s: string): nat
    requires IsBase32(s)
  {
    if s == [] then 0 else TextNum(s[..|s| - 1]) * 32 + Digit32(Upper(s[|s| - 1])).value
  }

  function NumText(n: nat, count: nat): (s: string)
    ensures |s| == count
  {
    if count == 0 then [] else NumText(n / 32, count - 1) + [Char32(n % 32)]
  }

  function Quotient(n: nat, d: nat): nat
    requires d > 0
  {
    n / d
  }

  /** What a base32 text stands for: its number without the bits that do not fill a byte. */
  function Decoded32(s: string): Option<Bytes> {
    if !IsBase32(s) then None
    else
      var spare := 5 * |s| % 8;
      Some(NumBytes(Quotient(TextNum(s), Pow2(spare)), (5 * |s| - spare) / 8))
  }

  /** Section 6 of RFC 4648 without padding characters: the bits, zero-filled to a multiple of five. */
  function Encoded32(b: Bytes): string {
    var digits := (8 * |b| + 4) / 5;
    NumText(BytesNum(b) * Pow2(5 * digits - 8 * |b|), digits)
  }

  method DecodeBase32(s: string) returns (decoded: Option<Bytes>)
    ensures decoded == Decoded32(s)
  {
    hide Decoded32, Pow2, TextNum, BytesNum, Digit32;
    var bits: nat, nBits: nat, out: Bytes := 0, 0, [];
    assert Accumulated(s[..0], out, bits, nBits) by { AccumulatorStarts(s[..0]); }
    for i := 0 to |s|
      invariant Accumulated(s[..i], out, bits, nBits)
    {
      var idx := Digit32(Upper(s[i]));
      if idx.None? {
        NotBase32(s, i);
        return None;
      }
      AccumulatorShifts(s[..i], s[i], out, bits, nBits);
      assert s[..i + 1] == s[..i] + [s[i]];
      bits := (bits * 32) % 0x1_0000_0000_0000_0000 + idx.value;
      nBits := nBits + 5;
      if nBits >= 8 {
        nBits := nBits - 8;
        ghost var q, r := AccumulatorEmits(s[..i + 1], out, bits, nBits);
        out := out + [((bits / Pow2(nBits)) % 256) as byte];
        bits := bits % Pow2(nBits);
        assert out[|out| - 1] == q as byte && bits == r;
      }
    }
    assert s[..|s|] == s;
    AccumulatorEnds(s, out, bits, nBits);
    decoded := Some(out);
  }

  // ---- The accumulator ----

  /** Bytes emitted so far and bits held back, read as one number, are the text read so far. */
  ghost predicate Balanced(t: string, out: Bytes, bits: nat, nBits: nat) {
    && IsBase32(t)
    && bits < Pow2(nBits) && 8 * |out| + nBits == 5 * |t|
    && BytesNum(out) * Pow2(nBits) + bits == TextNum(t)
  }

  ghost predicate Accumulated(t: string, out: Bytes, bits: nat, nBits: nat) {
    nBits < 8 && Balanced(t, out, bits, nBits)
  }

  lemma AccumulatorStarts(t: string)
    requires t == []
    ensures Accumulated(t, [], 0, 0)
  {
  }

  lemma {:induction false} AccumulatorShifts(t: string, c: char, out: Bytes, bits: nat, nBits: nat)
    requires Accumulated(t, out, bits, nBits) && Digit32(Upper(c)).Some?
    ensures bits * 32 < 0x1_0000_0000_0000_0000
    ensures Balanced(t + [c], out, bits * 32 + Digit32(Upper(c)).value, nBits + 5)
  {
    var d, high, low := Digit32(Upper(c)).value, BytesNum(out), Pow2(nBits);
    TextNumAppend(t, c);
    hide Digit32, TextNum, BytesNum, Pow2;
    Pow2Small();
    Pow2Adds(nBits, 5);
    Pow2Mono(nBits, 8);
    ShiftSum(high, low, bits, d);
  }

  lemma ShiftSum(high: nat, low: nat, bits: nat, d: nat)
    requires bits < low && d < 32
    ensures bits * 32 + d < low * 32
    ensures high * (low * 32) + (bits * 32 + d) == (high * low + bits) * 32 + d
  {
    assert high * (low * 32) == high * low * 32;
  }

  lemma {:induction false} AccumulatorEmits(t: string, out: Bytes, bits: nat, nBits: nat) returns (q: nat, r: nat)
    requires nBits < 5 && Balanced(t, out, bits, nBits + 8)
    ensures q == bits / Pow2(nBits) && r == bits % Pow2(nBits) && q < 256
    ensures Accumulated(t, out + [q as byte], r, nBits)
  {
    hide TextNum, Pow2, BytesNum;
    Pow2Small();
    Pow2Adds(nBits, 8);
    q, r := SplitBits(BytesNum(out), bits, Pow2(nBits));
    BytesNumAppend(out, q as byte);
  }

  lemma {:induction false} AccumulatorEnds(t: string, out: Bytes, bits: nat, nBits: nat)
    requires Accumulated(t, out, bits, nBits)
    ensures Decoded32(t) == Some(out)
  {
    hide TextNum, Pow2, BytesNum, NumBytes;
    assert nBits == 5 * |t| % 8 && |out| == 5 * |t| / 8;
    DivModUnique(BytesNum(out), Pow2(nBits), bits);
    NumBytesInverse(out);
  }

  lemma NotBase32(s: string, i: nat)
    requires i < |s| && Digit32(Upper(s[i])).None?
    ensures Decoded32(s) == None
  {
  }

  lemma TextNumAppend(t: string, c: char)
    requires IsBase32(t) && Digit32(Upper(c)).Some?
    ensures IsBase32(t + [c]) && TextNum(t + [c]) == TextNum(t) * 32 + Digit32(Upper(c)).value
  {
    assert (t + [c])[..|t|] == t;
  }

  lemma BytesNumAppend(b: Bytes, x: byte)
    ensures BytesNum(b + [x]) == BytesNum(b) * 256 + x as nat
  {
    assert (b + [x])[..|b|] == b;
  }

  // ---- Arithmetic ----

  lemma Pow2Small()
    ensures Pow2(0) == 1 && Pow2(5) == 32 && Pow2(8) == 256
  {
    assert Pow2(4) == 16;
  }

  lemma {:induction false} Pow2Adds(a: nat, b: nat)
    ensures Pow2(a + b) == Pow2(a) * Pow2(b)
  {
    if b > 0 {
      Pow2Adds(a, b - 1);
      Double(Pow2(a), Pow2(b - 1));
    }
  }

  lemma Double(x: nat, y: nat)
    ensures 2 * (x * y) == x * (2 * y)
  {
  }

  lemma {:induction false} Pow2Mono(a: nat, b: nat)
    requires a < b
    ensures 2 * Pow2(a) <= Pow2(b)
    decreases b
  {
    if a + 1 < b { Pow2Mono(a, b - 1); }
  }

  /** Moving the bits above `p` into a new byte keeps the number. */
  lemma {:induction false} SplitBits(high: nat, bits: nat, p: nat) returns (q: nat, r: nat)
    requires p > 0 && bits < p * 256
    ensures q == bits / p && r == bits % p && q < 256 && r < p
    ensures high * (p * 256) + bits == (high * 256 + q) * p + r
  {
    q, r := bits / p, bits % p;
    assert bits == p * q + r;
    Monotone(p, 256, q);
    assert (high * 256 + q) * p == high * (p * 256) + p * q;
  }

  lemma {:induction false} NumBytesInverse(b: Bytes)
    ensures NumBytes(BytesNum(b), |b|) == b
  {
    if b != [] {
      NumBytesInverse(b[..|b| - 1]);
      assert b == b[..|b| - 1] + [b[|b| - 1]];
    }
  }

  lemma {:induction false} NumTextInverse(n: nat, count: nat)
    requires n < Pow2(5 * count)
    ensures IsBase32(NumText(n, count)) && TextNum(NumText(n, count)) == n
  {
    hide Pow2, Char32, Digit32, TextNum;
    Pow2Small();
    if count > 0 {
      var c := Char32(n % 32);
      CharIsDigit(n % 32);
      Pow2Adds(5 * (count - 1), 5);
      assert n < Pow2(5 * (count - 1)) * 32;
      NumTextInverse(n / 32, count - 1);
      TextNumAppend(NumText(n / 32, count - 1), c);
    } else {
      EmptyText();
    }
  }

  lemma EmptyText()
    ensures IsBase32([]) && TextNum([]) == 0
  {
  }

  lemma CharIsDigit(d: nat)
    requires d < 32
    ensures Digit32(Char32(d)) == Some(d) && Upper(Char32(d)) == Char32(d)
  {
  }

  lemma {:induction false} BytesNumBound(b: Bytes)
    ensures BytesNum(b) < Pow2(8 * |b|)
  {
    hide Pow2;
    Pow2Small();
    if b != [] {
      BytesNumBound(b[..|b| - 1]);
      Pow2Adds(8 * (|b| - 1), 8);
    }
  }

  // ---- Round trips ----

  /** Decoding undoes the encoding of any bytes, whatever the case of the letters. */
  lemma {:induction false} Base32RoundTrip(b: Bytes, s: string)
    requires |s| == |Encoded32(b)|
    requires forall i :: 0 <= i < |s| ==> Upper(s[i]) == Encoded32(b)[i]
    ensures Decoded32(s) == Some(b)
  {
    hide Pow2, NumText, TextNum, BytesNum, Upper, Digit32, Decoded32;
    var digits := (8 * |b| + 4) / 5;
    var pad := 5 * digits - 8 * |b|;
    var n := BytesNum(b) * Pow2(pad);
    assert n < Pow2(5 * digits) by {
      BytesNumBound(b);
      Pow2Adds(8 * |b|, pad);
      Scale(BytesNum(b), Pow2(8 * |b|), Pow2(pad));
    }
    NumTextInverse(n, digits);
    NumTextIsUpper(n, digits);
    SameText(s, NumText(n, digits));
    AccumulatorEnds(s, b, 0, pad);
  }

  lemma Scale(a: nat, b: nat, p: nat)
    requires a < b && p > 0
    ensures a * p < b * p
  {
  }

  lemma {:induction false} SameText(s: string, t: string)
    requires |s| == |t| && IsBase32(t)
    requires forall i :: 0 <= i < |s| ==> Upper(s[i]) == t[i] && Upper(t[i]) == t[i]
    ensures IsBase32(s) && TextNum(s) == TextNum(t)
  {
    hide Upper, Digit32;
    if s != [] { SameText(s[..|s| - 1], t[..|t| - 1]); }
  }

  lemma {:induction false} NumTextIsUpper(n: nat, count: nat)
    ensures forall i :: 0 <= i < count ==> Upper(NumText(n, count)[i]) == NumText(n, count)[i]
  {
    if count > 0 { NumTextIsUpper(n / 32, count - 1); }
  }

  lemma {:induction false} NumTextIsAscii(n: nat, count: nat)
    ensures Ascii(NumText(n, count))
  {
    if count > 0 { NumTextIsAscii(n / 32, count - 1); }
  }

  // ---- The xt parameter ----

  function HexDigit(c: char): (r: Option<nat>)
    ensures r.Some? ==> r.value < 16
  {
    if '0' <= c <= '9' then Some((c - '0') as nat)
    else if 'a' <= c <= 'f' then Some(10 + (c - 'a') as nat)
    else if 'A' <= c <= 'F' then Some(10 + (c - 'A') as nat)
    else None
  }

  function HexChar(d: nat): char
    requires d < 16
  {
    if d < 10 then '0' + d as char else 'a' + (d - 10) as char
  }

  /** hex.EncodeToString. */
  function HexText(b: Bytes): (s: string)
    ensures |s| == 2 * |b|
  {
    if b == [] then [] else [HexChar(b[0] as nat / 16), HexChar(b[0] as nat % 16)] + HexText(b[1..])
  }

  /** hex.DecodeString. */
  function HexBytes(s: string): (r: Option<Bytes>)
    ensures r.Some? ==> 2 * |r.value| == |s|
  {
    if s == [] then Some([])
    else if |s| == 1 || HexDigit(s[0]).None? || HexDigit(s[1]).None? then None
    else match HexBytes(s[2..])
      case None => None
      case Some(rest) => Some([(16 * HexDigit(s[0]).value + HexDigit(s[1]).value) as byte] + rest)
  }

  const ZERO_HASH: Bytes := seq(20, _ => 0)

  /** The decoded bytes are copied into an array of 20 zeros. */
  method ParseInfoHash(xt: string) returns (r: Result<Bytes, Error>)
    ensures r.Ok? ==> |r.value| == 20
    ensures !(PREFIX <= xt) ==> r == Err(MissingPrefix)
    ensures PREFIX <= xt ==>
              var raw := xt[|PREFIX|..];
              && (ByteLength(raw) == 40 ==> r == if HexBytes(raw).Some? then Ok(HexBytes(raw).value) else Err(BadHex))
              && (ByteLength(raw) == 32 ==>
                    r == if Decoded32(raw).Some? then Ok(CopyInto(ZERO_HASH, 0, Decoded32(raw).value)) else Err(BadBase32))
              && (ByteLength(raw) == 32 && Ascii(raw) && Decoded32(raw).Some? ==> r == Ok(Decoded32(raw).value))
              && (ByteLength(raw) != 40 && ByteLength(raw) != 32 ==> r == Err(BadLength))
  {
    hide Decoded32, HexBytes, ByteLength, CopyInto;
    if !(PREFIX <= xt) { return Err(MissingPrefix); }
    var raw := xt[|PREFIX|..];
    var length := ByteLength(raw);
    if length == 40 {
      HexIsAscii(raw);
      var decoded := HexBytes(raw);
      if decoded.None? { return Err(BadHex); }
      WholeHash(decoded.value);
      r := Ok(CopyInto(ZERO_HASH, 0, decoded.value));
    } else if length == 32 {
      var decoded := DecodeBase32(raw);
      if decoded.None? { return Err(BadBase32); }
      DecodedLength(raw);
      WholeHash(decoded.value);
      r := Ok(CopyInto(ZERO_HASH, 0, decoded.value));
    } else {
      r := Err(BadLength);
    }
  }

  lemma WholeHash(b: Bytes)
    ensures |b| == 20 ==> CopyInto(ZERO_HASH, 0, b) == b
  {
  }

  /** A text has as many characters as bytes exactly when it is ASCII. */
  lemma {:induction false} AsciiLength(s: string)
    ensures |s| <= ByteLength(s) && (|s| == ByteLength(s) <==> Ascii(s))
  {
    if s != [] {
      AsciiLength(s[..|s| - 1]);
      assert Ascii(s) <==> Ascii(s[..|s| - 1]) && s[|s| - 1] < 128 as char;
    }
  }

  lemma {:induction false} HexCharsAreAscii(s: string)
    requires HexBytes(s).Some?
    ensures Ascii(s)
    decreases |s|
  {
    if s != [] {
      HexCharsAreAscii(s[2..]);
      assert forall i :: 2 <= i < |s| ==> s[i] == s[2..][i - 2];
    }
  }

  lemma HexIsAscii(s: string)
    ensures HexBytes(s).Some? ==> 2 * |HexBytes(s).value| == ByteLength(s)
  {
    AsciiLength(s);
    if HexBytes(s).Some? { HexCharsAreAscii(s); }
  }

  /** Text of 32 bytes that decodes gives a whole hash if and only if it is ASCII; otherwise the hash that the
      parser returns ends in zeros. */
  lemma {:induction false} DecodedLength(s: string)
    requires ByteLength(s) == 32
    ensures Decoded32(s).Some? ==> |Decoded32(s).value| <= 20 && (|Decoded32(s).value| == 20 <==> Ascii(s))
  {
    AsciiLength(s);
    hide NumBytes, TextNum, Quotient, Pow2;
  }

  /** Sixteen long s, two bytes each, are accepted and give ten bytes. */
  lemma {:induction false} LongSDecodesShort() returns (s: string)
    ensures ByteLength(s) == 32 && !Ascii(s) && Decoded32(s).Some? && |Decoded32(s).value| == 10
  {
    s := seq(16, _ => '\U{017F}');
    LongSLength(16);
    hide NumBytes, TextNum, Quotient, Pow2, ByteLength;
    assert s[0] == '\U{017F}';
  }

  lemma {:induction false} LongSLength(n: nat)
    ensures ByteLength(seq(n, _ => '\U{017F}')) == 2 * n
  {
    if n > 0 {
      assert seq(n, _ => '\U{017F}')[..n - 1] == seq(n - 1, _ => '\U{017F}');
      LongSLength(n - 1);
    }
  }

  /** Both written forms of a 20-byte hash are exactly as long as the parser expects and decode to it. */
  lemma {:induction false} InfoHashFormsDecode(hash: Bytes)
    requires |hash| == 20
    ensures ByteLength(HexText(hash)) == 40 && HexBytes(HexText(hash)) == Some(hash)
    ensures ByteLength(Encoded32(hash)) == 32 && Decoded32(Encoded32(hash)) == Some(hash)
  {
    HexRoundTrip(hash);
    HexIsAscii(HexText(hash));
    AsciiLength(Encoded32(hash));
    NumTextIsAscii(BytesNum(hash) * Pow2(5 * 32 - 8 * 20), 32);
    hide HexText, HexBytes;
    NumTextIsUpper(BytesNum(hash) * Pow2(5 * 32 - 8 * 20), 32);
    Base32RoundTrip(hash, Encoded32(hash));
  }

  lemma {:induction false} HexRoundTrip(b: Bytes)
    ensures HexBytes(HexText(b)) == Some(b)
  {
    if b != [] {
      hide HexDigit, HexChar;
      HexRoundTrip(b[1..]);
      var high, low := b[0] as nat / 16, b[0] as nat % 16;
      HexCharIsDigit(high);
      HexCharIsDigit(low);
      assert HexText(b)[2..] == HexText(b[1..]);
      assert (16 * high + low) as byte == b[0];
      assert b == [b[0]] + b[1..];
    }
  }

  lemma HexCharIsDigit(d: nat)
    requires d < 16
    ensures HexDigit(HexChar(d)) == Some(d)
  {
  }

  // ---- Letters ----

  /** The alphabet of section 6 of RFC 4648. */
  lemma AlphabetOrder(c: char, k: nat)
    ensures Digit32(c) == Some(k) <==> k < 32 && "ABCDEFGHIJKLMNOPQRSTUVWXYZ234567"[k] == c
  {
  }

  /** Hex digits in either case. */
  lemma HexOrder(c: char, k: nat)
    ensures HexDigit(c) == Some(k) <==> k < 16 && ("0123456789abcdef"[k] == c || "0123456789ABCDEF"[k] == c)
  {
  }

  /** `c` and `d` are the same letter in either case, or the same character. */
  ghost predicate SameLetter(c: char, d: char) {
    c == d || exists k :: 0 <= k < 26 && Letters(k, c, d)
  }

  predicate Letters(k: nat, c: char, d: char)
    requires k < 26
  {
    || ("ABCDEFGHIJKLMNOPQRSTUVWXYZ"[k] == c && "abcdefghijklmnopqrstuvwxyz"[k] == d)
    || ("ABCDEFGHIJKLMNOPQRSTUVWXYZ"[k] == d && "abcdefghijklmnopqrstuvwxyz"[k] == c)
  }

  ghost predicate SameLetters(s: string, t: string) {
    |s| == |t| && forall i :: 0 <= i < |s| ==> SameLetter(s[i], t[i])
  }

  lemma LetterPair(k: nat)
    requires k < 26
    ensures "ABCDEFGHIJKLMNOPQRSTUVWXYZ"[k] == 'A' + k as char && "abcdefghijklmnopqrstuvwxyz"[k] == 'a' + k as char
  {
  }

  lemma PairUpper(k: nat)
    requires k < 26
    ensures var c, d := 'A' + k as char, 'a' + k as char; Upper(c) == Upper(d) && HexDigit(c) == HexDigit(d)
  {
  }

  lemma LetterUpper(c: char, d: char)
    requires SameLetter(c, d)
    ensures Upper(c) == Upper(d) && HexDigit(c) == HexDigit(d)
  {
    hide Upper, HexDigit;
    if c != d {
      var k :| 0 <= k < 26 && Letters(k, c, d);
      LetterPair(k);
      PairUpper(k);
    }
  }

  lemma {:induction false} LettersUpper(s: string, t: string)
    requires SameLetters(s, t)
    ensures forall i :: 0 <= i < |s| ==> Upper(s[i]) == Upper(t[i]) && HexDigit(s[i]) == HexDigit(t[i])
  {
    hide SameLetter, Upper, HexDigit;
    forall i | 0 <= i < |s| ensures Upper(s[i]) == Upper(t[i]) && HexDigit(s[i]) == HexDigit(t[i]) {
      LetterUpper(s[i], t[i]);
    }
  }

  lemma SameAlphabet(s: string, t: string)
    requires |s| == |t| && forall i :: 0 <= i < |s| ==> Upper(s[i]) == Upper(t[i])
    ensures IsBase32(s) <==> IsBase32(t)
  {
    hide Digit32, Upper;
    assert IsBase32(s) ==> forall i :: 0 <= i < |t| ==> Digit32(Upper(s[i])).Some?;
    assert IsBase32(t) ==> forall i :: 0 <= i < |s| ==> Digit32(Upper(t[i])).Some?;
  }

  lemma SameDecoded(s: string, t: string)
    requires |s| == |t| && (IsBase32(s) <==> IsBase32(t)) && (IsBase32(s) ==> TextNum(s) == TextNum(t))
    ensures Decoded32(s) == Decoded32(t)
  {
    hide IsBase32, NumBytes, Pow2, TextNum, Quotient;
  }

  /** The case of the letters makes no difference, neither in base32 nor in hex. */
  lemma {:induction false} CaseIsIgnored(s: string, t: string)
    requires SameLetters(s, t)
    ensures Decoded32(s) == Decoded32(t) && HexBytes(s) == HexBytes(t)
  {
    LettersUpper(s, t);
    assert |s| == |t|;
    hide IsBase32, Upper, HexDigit, SameLetters, Decoded32, TextNum, HexBytes;
    SameAlphabet(s, t);
    if IsBase32(s) { SameNumber(s, t); }
    SameDecoded(s, t);
    SameHex(s, t);
  }

  lemma {:induction false} SameNumber(s: string, t: string)
    requires |s| == |t| && IsBase32(s) && forall i :: 0 <= i < |s| ==> Upper(s[i]) == Upper(t[i])
    ensures IsBase32(t) && TextNum(s) == TextNum(t)
  {
    hide Digit32, Upper;
    if s != [] { SameNumber(s[..|s| - 1], t[..|t| - 1]); }
  }

  lemma {:induction false} SameHex(s: string, t: string)
    requires |s| == |t| && forall i :: 0 <= i < |s| ==> HexDigit(s[i]) == HexDigit(t[i])
    ensures HexBytes(s) == HexBytes(t)
    decreases |s|
  {
    hide HexDigit;
    if |s| > 1 { SameHex(s[2..], t[2..]); }
  }

  /** Two hex digits make a byte, the first the higher half. */
  lemma {:induction false} HexMeans(s: string, i: nat)
    requires HexBytes(s).Some? && i < |HexBytes(s).value|
    ensures HexDigit(s[2 * i]).Some? && HexDigit(s[2 * i + 1]).Some?
    ensures HexBytes(s).value[i] as int == 16 * HexDigit(s[2 * i]).value + HexDigit(s[2 * i + 1]).value
    decreases |s|
  {
    hide HexDigit;
    if i > 0 {
      HexMeans(s[2..], i - 1);
      assert s[2..][2 * (i - 1)] == s[2 * i] && s[2..][2 * (i - 1) + 1] == s[2 * i + 1];
    }
  }

  /** What hex decoding accepts: an even number of hex digits. */
  lemma {:induction false} HexAccepts(s: string)
    ensures HexBytes(s).Some? <==> |s| % 2 == 0 && forall i :: 0 <= i < |s| ==> HexDigit(s[i]).Some?
    decreases |s|
  {
    hide HexDigit;
    if |s| > 1 {
      HexAccepts(s[2..]);
      assert forall i :: 2 <= i < |s| ==> s[i] == s[2..][i - 2];
      assert forall i :: 0 <= i < |s| - 2 ==> s[2..][i] == s[i + 2];
    }
  }
}
