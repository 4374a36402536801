/**
 The compact encoding of 256-bit targets (arith_uint256::SetCompact and GetCompact) and the
 work of a block that has a given target (GetBlockProof of src/chain.cpp).
 */
module Compact {
  import opened Power
  import opened Arith

  type Word = x: int | 0 <= x < BASE

  const SIGN := 0x80_0000
  const MANTISSA := 0x80_0000
  const EXPONENT := 0x100_0000

  function Size(c: Word): nat {
    c / EXPONENT
  }

  function Sign(c: Word): bool {
    c / SIGN % 2 == 1
  }

  /** The mantissa; a small size drops its low bytes. */
  function Digits(c: Word): nat {
    var w := c % MANTISSA;
    if Size(c) <= 3 then w / Pow(256, 3 - Size(c)) else w
  }

  /** The number a compact word stands for: mantissa times 256 to the size minus three. */
  ghost function Exact(c: Word): int {
    if Size(c) <= 3 then Digits(c) else Digits(c) * Pow(256, Size(c) - 3)
  }

  lemma {:induction false} PowBytes(n: nat)
    ensures Pow(2, 8 * n) == Pow(256, n)
  {
    if n > 0 {
      PowBytes(n - 1);
      assert Pow(2, 8) == 256;
      PowAdd(2, 8, 8 * (n - 1));
    }
  }

  /** The modulus is 256^32. */
  lemma ModulusBytes()
    ensures MODULUS == Pow(256, 32)
  {
    PowBytes(32);
  }

  lemma PowSteps(n: nat)
    ensures Pow(256, n + 1) == 256 * Pow(256, n) && Pow(256, n) > 0
  {
  }

  /** The three tests on size and mantissa are exactly the overflow of the number. */
  lemma OverflowIsExact(c: Word)
    ensures var w, size := Digits(c), Size(c);
            (w != 0 && (size > 34 || (w > 0xff && size > 33) || (w > 0xffff && size > 32))) <==> Exact(c) >= MODULUS
  {
    var w, size := Digits(c), Size(c);
    ModulusBytes();
    if size <= 3 {
      SmallDigits(c);
      PowGrows(256, 3, 32);
      assert Pow(256, 3) == 0x100_0000;
    } else {
      hide Pow;
      OverflowAt(w, size - 3);
    }
  }

  lemma SmallDigits(c: Word)
    ensures Digits(c) < MANTISSA
  {
    if Size(c) <= 3 {
      var p := Pow(256, 3 - Size(c));
      DivMod(c % MANTISSA, p);
      if c % MANTISSA / p >= MANTISSA {
        MulGrows(1, p, c % MANTISSA / p);
        assert false;
      }
    }
  }

  lemma OverflowAt(w: nat, e: nat)
    requires w < MANTISSA
    ensures (w != 0 && (e > 31 || (w > 0xff && e > 30) || (w > 0xffff && e > 29))) <==> w * Pow(256, e) >= Pow(256, 32)
  {
    hide Pow;
    PowThree();
    if e >= 32 {
      PowGrows(256, 32, e);
      if w != 0 {
        MulGrows(1, w, Pow(256, e));
      }
    } else {
      PowAdd(256, 32 - e, e);
      PowSteps(e);
      Cancel(w, Pow(256, 32 - e), Pow(256, e));
      if e < 30 {
        PowGrows(256, 3, 32 - e);
      }
    }
  }

  lemma Cancel(a: int, b: int, p: int)
    requires p > 0
    ensures a * p >= b * p <==> a >= b
  {
    if a >= b {
      MulGrows(b, a, p);
    } else {
      MulGrows(a + 1, b, p);
      Distribute(a, 1, p);
    }
  }

  method SetCompact(c: Word) returns (r: ArithUint256, negative: bool, overflow: bool)
    ensures r.Valid() && fresh(r) && fresh(r.pn)
    ensures r.Value() == Exact(c) % MODULUS
    ensures overflow <==> Exact(c) >= MODULUS
    ensures negative <==> Digits(c) != 0 && Sign(c)
  {
    hide Pow;
    var size := c / EXPONENT;
    var word := c % MANTISSA;
    if size <= 3 {
      word := word / Pow(256, 3 - size);
      SmallDigits(c);
      r := new ArithUint256(word, 0);
      SmallIsExact(c);
    } else {
      r := new ArithUint256(word, 0);
      r.ShiftLeft(8 * (size - 3));
      PowBytes(size - 3);
    }
    OverflowIsExact(c);
    negative := word != 0 && c / SIGN % 2 == 1;
    overflow := word != 0 && (size > 34 || (word > 0xff && size > 33) || (word > 0xffff && size > 32));
  }

  lemma SmallIsExact(c: Word)
    requires Size(c) <= 3
    ensures Exact(c) % MODULUS == Exact(c)
  {
    hide Pow;
    SmallDigits(c);
    ModulusBytes();
    PowGrows(256, 3, 32);
    PowThree();
    DivUnique(Exact(c), MODULUS, 0, Exact(c));
  }

  lemma PowThree()
    ensures Pow(256, 0) == 1 && Pow(256, 1) == 0x100 && Pow(256, 2) == 0x1_0000 && Pow(256, 3) == 0x100_0000
  {
  }

  // ----- Encoding -----

  /** The number of bytes of a number. */
  ghost function Bytes(v: int): nat {
    if v <= 0 then 0 else 1 + Bytes(v / 256)
  }

  lemma {:induction false} BytesBound(v: nat)
    ensures v < Pow(256, Bytes(v)) && (v > 0 ==> Bytes(v) > 0 && Pow(256, Bytes(v) - 1) <= v)
  {
    if v > 0 {
      BytesBound(v / 256);
    }
  }

  lemma BytesUnique(v: nat, n: nat)
    requires v < Pow(256, n) && (n > 0 ==> Pow(256, n - 1) <= v)
    ensures n == Bytes(v)
  {
    BytesBound(v);
    assert v == 0 ==> Bytes(v) == 0;
    hide Pow, Bytes;
    PowThree();
    var m := Bytes(v);
    if m < n {
      PowGrows(256, m, n - 1);
    } else if n < m {
      PowGrows(256, n, m - 1);
    }
  }

  /** The leading three bytes of a number, as a 24-bit number. */
  ghost function Lead(v: int): int {
    var n := Bytes(v);
    if n <= 3 then v * Pow(256, 3 - n) else v / Pow(256, n - 3)
  }

  /** The size and the mantissa of the compact word: a mantissa with the sign bit set moves down a byte. */
  ghost function SizeOf(v: int): nat {
    if Lead(v) >= SIGN then Bytes(v) + 1 else Bytes(v)
  }

  ghost function MantissaOf(v: int): int {
    if Lead(v) >= SIGN then Lead(v) / 256 else Lead(v)
  }

  ghost function Encoded(v: int, negative: bool): int {
    SizeOf(v) * EXPONENT + MantissaOf(v) + if negative && MantissaOf(v) != 0 then SIGN else 0
  }

  lemma LeadBound(v: nat)
    ensures 0 <= Lead(v) < EXPONENT && 0 <= MantissaOf(v) < MANTISSA
  {
    BytesBound(v);
    var n := Bytes(v);
    hide Pow, Bytes;
    PowThree();
    if n <= 3 {
      PowAdd(256, n, 3 - n);
      ScaleBound(v, Pow(256, n), Pow(256, 3 - n));
    } else {
      PowAdd(256, 3, n - 3);
      DivBound(v, Pow(256, n - 3), Pow(256, 3));
    }
  }

  lemma ScaleBound(v: int, a: int, p: int)
    requires 0 <= v < a && p > 0
    ensures 0 <= v * p < a * p
  {
    Cancel(v, a, p);
    MulGrows(0, v, p);
  }

  /** Bits, rounded up to bytes. */
  lemma BytesFromBits(v: nat, bits: nat)
    requires (bits == 0 <==> v == 0) && (bits > 0 ==> Pow(2, bits - 1) <= v < Pow(2, bits))
    ensures Bytes(v) == (bits + 7) / 8
  {
    var n := (bits + 7) / 8;
    PowBytes(n);
    if n > 0 {
      PowBytes(n - 1);
      PowGrows(2, 8 * (n - 1), bits - 1);
      PowGrows(2, bits, 8 * n);
    }
    BytesUnique(v, n);
  }

  method LeadingBytes(x: ArithUint256) returns (size: nat, word: int)
    requires x.Valid()
    ensures size == Bytes(x.Value()) <= 32 && word == Lead(x.Value())
  {
    hide Pow, Val, Bytes;
    ghost var v := x.Value();
    ValBound(x.pn[..]);
    var bits := x.Bits();
    BytesFromBits(v, bits);
    LeadBound(v);
    size := (bits + 7) / 8;
    if size <= 3 {
      var low := x.GetLow64();
      SmallFits(v);
      word := low * Pow(256, 3 - size);
    } else {
      var bn := new ArithUint256.Copy(x);
      bn.ShiftRight(8 * (size - 3));
      PowBytes(size - 3);
      word := bn.GetLow64();
      DivUnique(bn.Value(), BASE * BASE, 0, bn.Value());
    }
  }

  method GetCompact(x: ArithUint256, negative: bool) returns (c: Word)
    requires x.Valid()
    ensures c == Encoded(x.Value(), negative)
  {
    hide Pow, Val, Bytes, Lead;
    ValBound(x.pn[..]);
    LeadBound(x.Value());
    var size, word := LeadingBytes(x);
    if word / SIGN % 2 == 1 {
      word := word / 256;
      size := size + 1;
    }
    assert 0 <= word < MANTISSA;
    assert size < 256;
    c := size * EXPONENT + word;
    if negative && word != 0 {
      c := c + SIGN;
    }
  }

  lemma SmallFits(v: nat)
    requires Bytes(v) <= 3
    ensures v % (BASE * BASE) == v
  {
    BytesBound(v);
    hide Pow, Bytes;
    PowThree();
    PowGrows(256, Bytes(v), 3);
    DivUnique(v, BASE * BASE, 0, v);
  }

  // ----- Encoding and decoding -----

  /** How many low bytes the encoding drops. */
  ghost function Dropped(v: int): nat {
    if SizeOf(v) <= 3 then 0 else SizeOf(v) - 3
  }

  /** The number with the dropped bytes set to zero. */
  ghost function Cut(v: int): int {
    v / Pow(256, Dropped(v)) * Pow(256, Dropped(v))
  }

  /** Two or three leading bytes survive, or all of them. */
  lemma DroppedBound(v: nat)
    ensures Dropped(v) == 0 || Bytes(v) - Dropped(v) == 2 || Bytes(v) - Dropped(v) == 3
    ensures Bytes(v) <= 2 ==> Dropped(v) == 0
  {
  }

  lemma LeadLarge(v: nat)
    requires v > 0
    ensures Lead(v) >= 0x1_0000 && MantissaOf(v) > 0
  {
    BytesBound(v);
    var n := Bytes(v);
    hide Pow, Bytes;
    PowThree();
    if n <= 3 {
      PowAdd(256, n - 1, 3 - n);
      MulGrows(Pow(256, n - 1), v, Pow(256, 3 - n));
    } else {
      PowAdd(256, 2, n - 3);
      DivAtLeast(v, Pow(256, n - 3), Pow(256, 2));
    }
  }

  lemma DivAtLeast(v: nat, p: nat, k: nat)
    requires p > 0 && k * p <= v
    ensures k <= v / p
  {
    DivMod(v, p);
    if v / p < k {
      MulGrows(v / p + 1, k, p);
      Distribute(v / p, 1, p);
      assert false;
    }
  }

  lemma BytesOfWord(v: nat)
    requires v < MODULUS
    ensures Bytes(v) <= 32
  {
    ModulusBytes();
    BytesBound(v);
    assert v == 0 ==> Bytes(v) == 0;
    hide Pow, Bytes;
    if Bytes(v) > 32 {
      PowGrows(256, 32, Bytes(v) - 1);
      assert false;
    }
  }

  /** The fields of an encoded number. */
  lemma EncodedFields(v: nat, negative: bool)
    requires v < MODULUS
    ensures 0 <= Encoded(v, negative) < BASE
    ensures var c: Word := Encoded(v, negative);
            Size(c) == SizeOf(v) && c % MANTISSA == MantissaOf(v) && (Sign(c) <==> negative && v > 0)
  {
    BytesOfWord(v);
    LeadBound(v);
    ZeroMantissa(v);
    hide Lead, Bytes, MODULUS, MantissaOf;
    SizeBound(v);
    hide SizeOf;
    FieldsOf(SizeOf(v), MantissaOf(v), if negative && MantissaOf(v) != 0 then 1 else 0);
  }

  lemma SizeBound(v: int)
    requires Bytes(v) <= 32
    ensures SizeOf(v) <= 33
  {
  }

  lemma FieldsOf(z: nat, m: nat, k: nat)
    requires z <= 33 && m < MANTISSA && k <= 1
    ensures var c := z * EXPONENT + m + k * SIGN;
            0 <= c < BASE && c / EXPONENT == z && c % MANTISSA == m && (c / SIGN % 2 == 1 <==> k == 1)
  {
    var c := z * EXPONENT + m + k * SIGN;
    DivUnique(c, EXPONENT, z, m + k * SIGN);
    DivUnique(c, MANTISSA, 2 * z + k, m);
    DivUnique(2 * z + k, 2, z, k);
  }

  lemma ZeroMantissa(v: nat)
    ensures MantissaOf(v) == 0 <==> v == 0
  {
    if v > 0 {
      LeadLarge(v);
    }
  }

  /** What decodes from the fields of an encoded number: a small one is kept whole. */
  lemma DecodeSmall(v: nat)
    requires SizeOf(v) <= 3
    ensures MantissaOf(v) / Pow(256, 3 - SizeOf(v)) == v && Cut(v) == v
  {
    hide Pow, Bytes;
    PowThree();
    LeadOfThree(v);
    var n, p := Bytes(v), Pow(256, 3 - SizeOf(v));
    if Lead(v) >= SIGN {
      PowSteps(2 - n);
      DivExact(v, p, 256);
    }
    DivExact(v, 1, p);
  }

  lemma DivExact(v: int, p: int, k: int)
    requires k > 0
    ensures v * (k * p) / k == v * p && v * p * k / k == v * p
  {
    Reorder(v, p, k);
    DivUnique(v * p * k, k, v * p, 0);
  }

  lemma Reorder(v: int, p: int, k: int)
    ensures v * (k * p) == v * p * k
  {
    MulAssoc(v, p, k);
    assert k * p == p * k;
  }

  lemma LeadOfThree(v: nat)
    ensures SizeOf(v) <= 3 ==> Bytes(v) <= 3 && (Bytes(v) == 3 ==> Lead(v) < SIGN)
  {
  }

  lemma DecodeLarge(v: nat)
    requires SizeOf(v) > 3
    ensures MantissaOf(v) * Pow(256, SizeOf(v) - 3) == Cut(v)
  {
    hide Pow, Bytes;
    PowThree();
    var n := Bytes(v);
    if Lead(v) >= SIGN && n > 3 {
      PowAdd(256, n - 3, 1);
      DivDiv(v, Pow(256, n - 3), 256);
    }
  }

  /** Cutting keeps the number of bytes, and the leading bytes up to the one that is dropped. */
  lemma CutLead(v: nat)
    requires Dropped(v) > 0
    ensures Bytes(Cut(v)) == Bytes(v)
    ensures Lead(Cut(v)) == if Lead(v) >= SIGN then Lead(v) / 256 * 256 else Lead(v)
  {
    var n, d := Bytes(v), Dropped(v);
    assert v > 0;
    BytesBound(v);
    CutBytes(v, n, d);
    DecodeLarge(v);
    hide Pow, Bytes;
    PowThree();
    if Lead(v) >= SIGN {
      PowAdd(256, 1, n - 3);
      MulAssoc(MantissaOf(v), 256, Pow(256, n - 3));
      DivExact(MantissaOf(v) * 256, 1, Pow(256, n - 3));
    } else {
      DivExact(Lead(v), 1, Pow(256, n - 3));
    }
  }

  lemma CutBytes(v: nat, n: nat, d: nat)
    requires n > d && Pow(256, n - 1) <= v < Pow(256, n)
    ensures Bytes(v / Pow(256, d) * Pow(256, d)) == n
  {
    hide Pow, Bytes;
    var p := Pow(256, d);
    PowAdd(256, n - 1 - d, d);
    DivAtLeast(v, p, Pow(256, n - 1 - d));
    MulGrows(Pow(256, n - 1 - d), v / p, p);
    DivMod(v, p);
    BytesUnique(v / p * p, n);
  }

  /**
   Encoding and decoding again: no overflow, the sign is kept, the value is the number
   without its dropped bytes, and that encodes to the same word.
   */
  lemma RoundTrip(v: nat, negative: bool)
    requires v < MODULUS
    ensures 0 <= Encoded(v, negative) < BASE
    ensures var c: Word := Encoded(v, negative);
            && Exact(c) == Cut(v) < MODULUS
            && (Digits(c) != 0 && Sign(c) <==> negative && v > 0)
            && Encoded(Cut(v), negative) == c
  {
    hide Pow, Bytes, Lead, MODULUS;
    EncodedFields(v, negative);
    ZeroMantissa(v);
    CutBound(v);
    if SizeOf(v) <= 3 {
      DecodeSmall(v);
    } else {
      DecodeLarge(v);
      CutEncodes(v, negative);
    }
  }

  /** A number without its dropped bytes is encoded to the same word. */
  lemma CutEncodes(v: nat, negative: bool)
    requires SizeOf(v) > 3
    ensures Encoded(Cut(v), negative) == Encoded(v, negative)
  {
    hide Pow, Bytes, Lead;
    CutLead(v);
    LeadBound(v);
  }

  lemma CutBound(v: nat)
    ensures Cut(v) <= v
  {
    DivMod(v, Pow(256, Dropped(v)));
  }

  // ----- The work of a block -----

  /** A target that does not overflow is not the largest number, so one can be added to it. */
  lemma TargetBelowTop(c: Word)
    requires Exact(c) < MODULUS
    ensures 0 <= Exact(c) && Exact(c) + 1 < MODULUS
  {
    SmallDigits(c);
    hide Pow, MODULUS;
    ModulusBytes();
    PowThree();
    PowSteps(31);
    if Size(c) <= 3 {
      PowGrows(256, 3, 32);
    } else {
      PowSteps(Size(c) - 4);
      hide Digits;
      NotLast(Digits(c), Pow(256, Size(c) - 4), Pow(256, 31));
    }
  }

  lemma NotLast(w: nat, p: nat, q: nat)
    requires w * (256 * p) < 256 * q
    ensures 0 <= w * (256 * p) && w * (256 * p) + 1 < 256 * q
  {
    Reorder(w, p, 256);
    MulGrows(0, w, p);
  }

  /** The expected number of hashes for a target: all 2^256 divided by those that meet it. */
  lemma WorkIs(t: nat, m: nat)
    requires 0 < t && t + 1 < m
    ensures (m - 1 - t) / (t + 1) + 1 == m / (t + 1) < m
  {
    DivMod(m, t + 1);
    var q, r := m / (t + 1), m % (t + 1);
    Distribute(q, 1, t + 1);
    DivUnique(m - 1 - t, t + 1, q - 1, r);
    if q >= m {
      MulGrows(m, q, t + 1);
      MulGrows(2, t + 1, m);
      assert false;
    }
  }

  method GetBlockProof(nBits: Word, signedBlocks: bool) returns (r: ArithUint256)
    ensures r.Valid() && fresh(r) && fresh(r.pn)
    ensures signedBlocks ==> r.Value() == 1
    ensures !signedBlocks ==>
      r.Value() == if Exact(nBits) >= MODULUS || Exact(nBits) == 0 || (Digits(nBits) != 0 && Sign(nBits)) then 0
                   else MODULUS / (Exact(nBits) + 1)
  {
    hide Pow, Val, Weight, Digits;
    if signedBlocks {
      r := new ArithUint256(1, 0);
      return;
    }
    var target, negative, overflow := SetCompact(nBits);
    var zero := target.EqualTo(0, 0);
    ghost var t := Exact(nBits);
    ExactMod(nBits);
    if negative || overflow || zero {
      r := new ArithUint256(0, 0);
      return;
    }
    TargetBelowTop(nBits);
    WorkIs(t, MODULUS);
    hide Exact, MODULUS;
    r := target.Not();
    var one := new ArithUint256(1, 0);
    target.Add(one);
    DivUnique(t + 1, MODULUS, 0, t + 1);
    var ok := r.Divide(target);
    assert ok;
    one := new ArithUint256(1, 0);
    DivUnique(r.Value() + 1, MODULUS, 0, r.Value() + 1);
    r.Add(one);
  }

  lemma ExactMod(c: Word)
    ensures 0 <= Exact(c) && (Exact(c) < MODULUS ==> Exact(c) % MODULUS == Exact(c))
  {
    if Size(c) > 3 {
      MulGrows(0, Digits(c), Pow(256, Size(c) - 3));
    }
    if Exact(c) < MODULUS {
      DivUnique(Exact(c), MODULUS, 0, Exact(c));
    }
  }
}
