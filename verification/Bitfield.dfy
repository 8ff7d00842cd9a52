/** Which pieces a peer has, one bit a piece, the most significant bit of a byte first. */
module Bitfield {
  import opened Prelude

  type Bits = seq<byte>

  /** `1 << k` on a byte. */
  function Mask(k: nat): bv8
    requires k < 8
  {
    if k == 0 then 1 else if k == 1 then 2 else if k == 2 then 4 else if k == 3 then 8
    else if k == 4 then 16 else if k == 5 then 32 else if k == 6 then 64 else 128
  }

  function ToBits(b: byte): bv8 { b as bv8 }

  function FromBits(x: bv8): byte { x as byte }

  predicate IsSet(x: bv8, k: nat)
    requires k < 8
  {
    x & Mask(k) != 0
  }

  function WithBit(x: bv8, k: nat): bv8
    requires k < 8
  {
    x | Mask(k)
  }

  function HasBit(b: byte, k: nat): bool
    requires k < 8
  {
    IsSet(ToBits(b), k)
  }

  function SetBit(b: byte, k: nat): byte
    requires k < 8
  {
    FromBits(WithBit(ToBits(b), k))
  }

  predicate HasPiece(bf: Bits, index: nat) {
    if index / 8 >= |bf| then false else HasBit(bf[index / 8], 7 - index % 8)
  }

  function SetPiece(bf: Bits, index: nat): (r: Bits)
    ensures |r| == |bf|
  {
    if index / 8 < |bf| then bf[index / 8 := SetBit(bf[index / 8], 7 - index % 8)] else bf
  }

  function NewBitfield(numPieces: nat): Bits { seq((numPieces + 7) / 8, _ => 0) }

  lemma MaskedOr(x: bv8, k: nat, j: nat)
    requires k < 8 && j < 8
    ensures IsSet(WithBit(x, k), j) == (j == k || IsSet(x, j))
  {
  }

  lemma ByteConversion(x: bv8)
    ensures ToBits(FromBits(x)) == x
  {
  }

  lemma {:induction false} SetBitEffect(b: byte, k: nat, j: nat)
    requires k < 8 && j < 8
    ensures HasBit(SetBit(b, k), j) == (j == k || HasBit(b, j))
  {
    hide IsSet, WithBit, ToBits, FromBits;
    MaskedOr(ToBits(b), k, j);
    ByteConversion(WithBit(ToBits(b), k));
  }

  /** Setting a piece makes exactly that piece present, provided the field is long enough. */
  lemma {:induction false} SetPieceEffect(bf: Bits, index: nat, other: nat)
    ensures HasPiece(SetPiece(bf, index), other)
       <==> HasPiece(bf, other) || (other == index && index / 8 < |bf|)
  {
    hide HasBit, SetBit;
    if index / 8 < |bf| && other / 8 == index / 8 {
      SetBitEffect(bf[index / 8], 7 - index % 8, 7 - other % 8);
      assert index == 8 * (index / 8) + index % 8 && other == 8 * (other / 8) + other % 8;
    }
  }

  /** A fresh field has no piece. */
  lemma FreshHasNone(numPieces: nat, index: nat)
    ensures !HasPiece(NewBitfield(numPieces), index)
  {
    hide HasBit;
    if index / 8 < |NewBitfield(numPieces)| { NoBitOfZero(7 - index % 8); }
  }

  lemma NoBitOfZero(k: nat)
    requires k < 8
    ensures !HasBit(0, k)
  {
  }

  /** `2` to the power of `k`. */
  function Power(k: nat): (p: nat)
    ensures p > 0
  {
    if k == 0 then 1 else 2 * Power(k - 1)
  }

  /** The number that eight bits stand for. */
  function Number(x: bv8): nat { x as int }

  /** Piece `i` is present when the bit of weight `2` to the power `7 - i % 8` of byte `i / 8` is one: the most
      significant bit of a byte is its first piece. */
  lemma {:induction false} PieceIsABit(bf: Bits, i: nat)
    ensures HasPiece(bf, i) <==> i / 8 < |bf| && (bf[i / 8] as int / Power(7 - i % 8)) % 2 == 1
  {
    hide IsSet, ToBits, Number, Power;
    if i / 8 < |bf| {
      ToBitsKeeps(bf[i / 8]);
      BitOfByte(ToBits(bf[i / 8]), 7 - i % 8);
    }
  }

  lemma NextNumber(x: bv8)
    requires x != 255
    ensures Number(x + 1) == Number(x) + 1
  {
  }

  lemma FullNumber()
    ensures Number(0) == 0 && Number(255) == 255
  {
  }

  /** The bits of a number. */
  function BitsOf(n: nat): (x: bv8)
    requires n < 256
    ensures Number(x) == n
  {
    hide Number;
    FullNumber();
    if n == 0 then 0
    else NextNumber(BitsOf(n - 1)); BitsOf(n - 1) + 1
  }

  lemma ConversionBack(x: bv8)
    ensures FromBits(x) as int == Number(x)
  {
  }

  lemma {:induction false} ToBitsKeeps(b: byte)
    ensures Number(ToBits(b)) == b as int
  {
    hide ToBits, FromBits, Number;
    var x := BitsOf(b as nat);
    ByteConversion(x);
    ConversionBack(x);
  }

  lemma LowBit(x: bv8)
    ensures Number(x >> 1) == Number(x) / 2
    ensures x & 1 != 0 <==> Number(x) % 2 == 1
  {
  }

  lemma HigherBit(x: bv8, k: nat)
    requires k < 8
    ensures IsSet(x, 0) <==> x & 1 != 0
    ensures k > 0 ==> (IsSet(x, k) <==> IsSet(x >> 1, k - 1))
  {
  }

  lemma {:induction false} DivideByDouble(n: nat, p: nat)
    requires p > 0
    ensures n / (2 * p) == n / 2 / p
  {
    var q, r := n / 2 / p, n / 2 % p;
    Divide(n, 2);
    Divide(n / 2, p);
    assert n == q * (2 * p) + (2 * r + n % 2) by { assert q * p * 2 == q * (2 * p); }
    DivModUnique(q, 2 * p, 2 * r + n % 2);
  }

  lemma {:induction false} BitOfByte(x: bv8, k: nat)
    requires k < 8
    ensures IsSet(x, k) <==> (Number(x) / Power(k)) % 2 == 1
    decreases k
  {
    hide IsSet, Number;
    LowBit(x);
    HigherBit(x, k);
    if k > 0 {
      BitOfByte(x >> 1, k - 1);
      DivideByDouble(Number(x), Power(k - 1));
    }
  }
}
