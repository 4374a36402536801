/**
 256-bit unsigned integers as arrays of eight 32-bit limbs (src/arith_uint256.h and
 src/arith_uint256.cpp), proved against the integers modulo 2^256.
 */
module Arith {
  import opened Power

  const WIDTH: nat := 8
  const BASE := 0x1_0000_0000

  type Limb = x: int | 0 <= x < BASE

  /** The weight of limb `i`. */
  ghost function Weight(i: nat): nat {
    Pow(2, 32 * i)
  }

  ghost const MODULUS := Weight(WIDTH)

  /** The value of limbs, least significant first. */
  ghost function Val(s: seq<Limb>): int {
    if s == [] then 0 else Val(s[..|s| - 1]) + s[|s| - 1] * Weight(|s| - 1)
  }

  lemma WeightNext(i: nat)
    ensures Weight(i + 1) == BASE * Weight(i) && Weight(i) > 0
  {
    PowBase();
    hide Pow;
    PowAdd(2, 32, 32 * i);
  }

  lemma WeightZero()
    ensures Weight(0) == 1
  {
  }

  lemma {:induction false} ValBound(s: seq<Limb>)
    ensures 0 <= Val(s) < Weight(|s|)
  {
    hide Weight;
    if s == [] {
      WeightZero();
    } else {
      var n := |s| - 1;
      ValBound(s[..n]);
      WeightNext(n);
      MulGrows(s[n], BASE - 1, Weight(n));
    }
  }

  lemma ValNext(s: seq<Limb>, i: nat)
    requires i < |s|
    ensures Val(s[..i + 1]) == Val(s[..i]) + s[i] * Weight(i)
  {
    assert s[..i + 1][..i] == s[..i];
  }

  lemma {:induction false} ValSet(s: seq<Limb>, j: nat, x: Limb)
    requires j < |s|
    ensures Val(s[j := x]) == Val(s) + (x - s[j]) * Weight(j)
  {
    var n := |s| - 1;
    var t := s[j := x];
    if j == n {
      assert t[..n] == s[..n];
      Distribute(x, s[j], Weight(j));
    } else {
      assert t[..n] == s[..n][j := x];
      ValSet(s[..n], j, x);
    }
  }

  lemma {:induction false} ValZero(s: seq<Limb>)
    requires forall i :: 0 <= i < |s| ==> s[i] == 0
    ensures Val(s) == 0
  {
    if s != [] {
      ValZero(s[..|s| - 1]);
    }
  }

  lemma ValWhole(s: seq<Limb>)
    ensures s[..|s|] == s && Val(s[..0]) == 0
  {
  }

  /** A value that differs from `x` by a multiple of the modulus. */
  lemma IsMod(v: nat, x: nat, q: nat)
    requires v < MODULUS && x == v + q * MODULUS
    ensures v == x % MODULUS
  {
    DivUnique(x, MODULUS, q, v);
  }

  // ----- Disjoint bits -----

  /** Bitwise or. */
  function Or(x: nat, y: nat): nat {
    if x == 0 then y else if y == 0 then x
    else 2 * Or(x / 2, y / 2) + (if x % 2 == 1 || y % 2 == 1 then 1 else 0)
  }

  lemma {:induction false} OrDisjoint(x: nat, y: nat, s: nat)
    requires x < Pow(2, s) && y % Pow(2, s) == 0
    ensures Or(x, y) == x + y && Or(y, x) == x + y
  {
    if x != 0 && y != 0 {
      var p := Pow(2, s - 1);
      DivMod(y, Pow(2, s));
      MulAssoc(y / Pow(2, s), 2, p);
      assert y == 2 * (y / Pow(2, s) * p);
      DivUnique(y / 2, p, y / Pow(2, s), 0);
      OrDisjoint(x / 2, y / 2, s - 1);
    }
  }

  // ----- Carry chains -----

  /** One step of an addition that carries: `n` is split into a limb and a carry. */
  lemma CarryStep(v: int, carry: int, x: int, y: int, n: int, i: nat)
    requires v + carry * Weight(i) == x && n == carry + y
    ensures v + n % BASE * Weight(i) + n / BASE * Weight(i + 1) == x + y * Weight(i)
  {
    var w := Weight(i);
    WeightNext(i);
    DivMod(n, BASE);
    MulAssoc(n / BASE, BASE, w);
    Distribute(n / BASE * BASE, n % BASE, w);
    Distribute(carry, y, w);
  }

  class ArithUint256 {
    const pn: array<Limb>

    ghost predicate Valid() {
      pn.Length == WIDTH
    }

    ghost function Value(): int
      reads pn
    {
      Val(pn[..])
    }

    constructor (low: Limb, high: Limb)
      ensures Valid() && fresh(pn) && Value() == low + high * BASE
    {
      pn := new Limb[WIDTH](i => if i == 0 then low else if i == 1 then high else 0);
      new;
      FromWords(pn[..], low, high);
    }

    constructor Copy(b: ArithUint256)
      requires b.Valid()
      ensures Valid() && fresh(pn) && pn[..] == b.pn[..]
    {
      var limbs := b.pn[..];
      pn := new Limb[WIDTH](i requires 0 <= i < WIDTH => limbs[i]);
    }

    method Add(b: ArithUint256)
      requires Valid() && b.Valid()
      modifies pn
      ensures Value() == (old(Value()) + old(b.Value())) % MODULUS
    {
      hide Weight;
      ghost var x, y := pn[..], b.pn[..];
      var carry := 0;
      ValWhole(x);
      ValWhole(y);
      for i := 0 to WIDTH
        invariant 0 <= carry <= 1
        invariant pn[i..] == x[i..] && b.pn[i..] == y[i..]
        invariant Val(pn[..i]) + carry * Weight(i) == Val(x[..i]) + Val(y[..i])
      {
        assert pn[i] == x[i] && b.pn[i] == y[i];
        var n := carry + pn[i] + b.pn[i];
        CarryStep(Val(pn[..i]), carry, Val(x[..i]) + Val(y[..i]), x[i] as int + y[i] as int, n, i);
        ValNext(x, i);
        ValNext(y, i);
        Distribute(x[i], y[i], Weight(i));
        ghost var before := pn[..];
        pn[i] := n % BASE;
        carry := n / BASE;
        assert pn[..i] == before[..i];
        ValNext(pn[..], i);
        assert pn[..][..i + 1] == pn[..i + 1] && pn[..][..i] == pn[..i];
      }
      ValBound(pn[..]);
      ValWhole(pn[..]);
      IsMod(Value(), Val(x) + Val(y), carry);
    }

    /** Each limb is complemented. */
    method Not() returns (r: ArithUint256)
      requires Valid()
      ensures r.Valid() && fresh(r) && fresh(r.pn) && r.Value() == MODULUS - 1 - Value()
    {
      r := new ArithUint256(0, 0);
      for i := 0 to WIDTH
        invariant forall j :: 0 <= j < i ==> r.pn[j] == BASE - 1 - pn[j]
        invariant unchanged(pn)
      {
        r.pn[i] := BASE - 1 - pn[i];
      }
      Complement(pn[..], r.pn[..]);
    }

    method Increment()
      requires Valid()
      modifies pn
      ensures Value() == (old(Value()) + 1) % MODULUS
    {
      hide Weight, Val;
      ghost var x := pn[..];
      ValBound(x);
      WeightZero();
      var i := 0;
      while i < WIDTH
        invariant 0 <= i <= WIDTH && pn[i..] == x[i..]
        invariant Val(pn[..]) + Weight(i) == Val(x) + 1
      {
        BumpLimb(pn[..], i);
        ghost var before := pn[..];
        pn[i] := if pn[i] == BASE - 1 then 0 else pn[i] + 1;
        assert pn[..] == before[i := pn[i]];
        if pn[i] != 0 {
          Stays(Val(pn[..]), pn[..]);
          return;
        }
        i := i + 1;
      }
      ValBound(pn[..]);
      IsMod(Value(), Val(x) + 1, 1);
    }

    method Decrement()
      requires Valid()
      modifies pn
      ensures Value() == (old(Value()) - 1) % MODULUS
    {
      hide Weight, Val;
      ghost var x := pn[..];
      ValBound(x);
      WeightZero();
      var i := 0;
      while i < WIDTH
        invariant 0 <= i <= WIDTH && pn[i..] == x[i..]
        invariant Val(pn[..]) - Weight(i) == Val(x) - 1
      {
        DropLimb(pn[..], i);
        ghost var before := pn[..];
        pn[i] := if pn[i] == 0 then BASE - 1 else pn[i] - 1;
        assert pn[..] == before[i := pn[i]];
        if pn[i] != BASE - 1 {
          Stays(Val(pn[..]), pn[..]);
          return;
        }
        i := i + 1;
      }
      ValBound(pn[..]);
      DivUnique(Val(x) - 1, MODULUS, -1, Value());
    }

    method Negate() returns (r: ArithUint256)
      requires Valid()
      ensures r.Valid() && fresh(r) && fresh(r.pn) && r.Value() == (MODULUS - Value()) % MODULUS
    {
      r := Not();
      r.Increment();
    }

    method Subtract(b: ArithUint256)
      requires Valid() && b.Valid()
      modifies pn
      ensures Value() == (old(Value()) - old(b.Value())) % MODULUS
    {
      hide *;
      ghost var x, y := Value(), b.Value();
      ModulusPositive();
      SubMod(x, y, MODULUS);
      var n := b.Negate();
      Add(n);
    }

    /** Which value is larger, by the most significant limb that differs. */
    method CompareTo(b: ArithUint256) returns (r: int)
      requires Valid() && b.Valid()
      ensures r == if Value() < b.Value() then -1 else if Value() > b.Value() then 1 else 0
    {
      var i := WIDTH;
      while i > 0
        invariant 0 <= i <= WIDTH && pn[i..] == b.pn[i..]
      {
        i := i - 1;
        if pn[i] < b.pn[i] {
          TopDecides(pn[..], b.pn[..], i);
          return -1;
        }
        if pn[i] > b.pn[i] {
          TopDecides(b.pn[..], pn[..], i);
          return 1;
        }
        assert pn[i..] == b.pn[i..];
      }
      assert pn[..] == b.pn[..];
      r := 0;
    }

    /** Set bits of a limb that are not set yet. */
    method OrInto(j: nat, x: Limb, ghost s: nat)
      requires Valid() && j < WIDTH && pn[j] + x < BASE
      requires (pn[j] < Pow(2, s) && x % Pow(2, s) == 0) || (x < Pow(2, s) && pn[j] % Pow(2, s) == 0)
      modifies pn
      ensures pn[..] == old(pn[..])[j := old(pn[j]) + x]
      ensures Value() == old(Value()) + x * Weight(j)
    {
      hide Weight, Pow;
      ghost var before := pn[..];
      if pn[j] < Pow(2, s) && x % Pow(2, s) == 0 {
        OrDisjoint(pn[j], x, s);
      } else {
        OrDisjoint(x, pn[j], s);
      }
      pn[j] := Or(pn[j], x);
      ValSet(before, j, pn[j]);
    }

    method ShiftLeft(shift: nat)
      requires Valid()
      modifies pn
      ensures Value() == (old(Value()) * Pow(2, shift)) % MODULUS
    {
      hide Weight, Pow, Or, Val, Lost, Added, LeftDone;
      var a := pn[..];
      Clear();
      var k, s := shift / 32, shift % 32;
      ghost var q := 0;
      LeftStarts(a, shift);
      for i := 0 to WIDTH
        invariant forall j :: i + k < j < WIDTH ==> pn[j] == 0
        invariant i + k < WIDTH ==> pn[i + k] < Pow(2, s)
        invariant LeftDone(a, i, shift, Value(), q)
      {
        SplitLimb(a[i], s);
        ghost var before := Value();
        var hi, lo := a[i] / Pow(2, 32 - s), a[i] * Pow(2, s) % BASE;
        if i + k + 1 < WIDTH && s != 0 {
          OrInto(i + k + 1, hi, s);
        }
        if i + k < WIDTH {
          OrInto(i + k, lo, s);
        }
        AddedIs(hi, i + k + 1);
        AddedIs(lo, i + k);
        LeftStep(a, i, shift, hi, lo, before, Value(), q);
        q := q + Lost(hi, i + k + 1) + Lost(lo, i + k);
      }
      LeftEnds(a, shift, pn[..], q);
    }

    method Clear()
      requires Valid()
      modifies pn
      ensures (forall j :: 0 <= j < WIDTH ==> pn[j] == 0) && Value() == 0
    {
      for i := 0 to WIDTH
        invariant forall j :: 0 <= j < i ==> pn[j] == 0
      {
        pn[i] := 0;
      }
      ValZero(pn[..]);
    }

    method ShiftRight(shift: nat)
      requires Valid()
      modifies pn
      ensures Value() == old(Value()) / Pow(2, shift)
    {
      hide Weight, Pow, Or, Val;
      var a := pn[..];
      Clear();
      ValWhole(a);
      var k, s := shift / 32, shift % 32;
      ValBound(a[..0]);
      for i := 0 to WIDTH
        invariant forall j :: 0 <= j < WIDTH && i - k <= j ==> pn[j] == 0
        invariant 0 <= i - k - 1 < WIDTH ==> pn[i - k - 1] < Pow(2, 32 - s)
        invariant Value() == Val(a[..i]) / Pow(2, shift)
      {
        SplitRight(a[i], s);
        ghost var before := Value();
        var hi, lo := a[i] / Pow(2, s), a[i] * Pow(2, 32 - s) % BASE;
        if i - k - 1 >= 0 && s != 0 {
          OrInto(i - k - 1, lo, 32 - s);
        }
        if i - k >= 0 {
          OrInto(i - k, hi, 32 - s);
        }
        RightStep(a, i, shift, hi, lo, before, Value());
      }
    }

    method MultiplySmall(b: Limb)
      requires Valid()
      modifies pn
      ensures Value() == (old(Value()) * b) % MODULUS
    {
      hide Weight;
      ghost var x := pn[..];
      var carry := 0;
      ValWhole(x);
      for i := 0 to WIDTH
        invariant 0 <= carry < BASE
        invariant pn[i..] == x[i..]
        invariant Val(pn[..i]) + carry * Weight(i) == Val(x[..i]) * b
      {
        assert pn[i] == x[i];
        Product(b, x[i], carry, 0);
        var n := carry + b * pn[i];
        CarryStep(Val(pn[..i]), carry, Val(x[..i]) * b, b * x[i], n, i);
        ValNext(x, i);
        Distribute(Val(x[..i]), x[i] * Weight(i), b);
        MulAssoc(x[i], Weight(i), b);
        MulAssoc(b, x[i], Weight(i));
        ghost var before := pn[..];
        pn[i] := n % BASE;
        carry := n / BASE;
        assert pn[..i] == before[..i];
        ValNext(pn[..], i);
        assert pn[..][..i + 1] == pn[..i + 1] && pn[..][..i] == pn[..i];
      }
      ValBound(pn[..]);
      ValWhole(pn[..]);
      IsMod(Value(), Val(x) * b, carry);
    }

    /** Schoolbook multiplication; what would go beyond the last limb is dropped. */
    method Multiply(b: ArithUint256)
      requires Valid() && b.Valid()
      modifies pn
      ensures Value() == (old(Value()) * old(b.Value())) % MODULUS
    {
      hide Weight, Val;
      var x, y := pn[..], b.pn[..];
      var a := new ArithUint256(0, 0);
      ghost var q := 0;
      ValWhole(x);
      for j := 0 to WIDTH
        invariant a.Valid() && fresh(a) && fresh(a.pn) && pn[..] == x && b.pn[..] == y
        invariant q >= 0 && Val(x[..j]) * Val(y) == a.Value() + q * MODULUS
      {
        ghost var before := a.Value();
        var carry := a.AddRow(x[j], y, j);
        MultiplyStep(x, y, j, before, a.Value(), carry, q);
        q := q + carry + x[j] * Val(y[WIDTH - j..]);
        ValBound(y[WIDTH - j..]);
      }
      ValBound(a.pn[..]);
      IsMod(a.Value(), Val(x) * Val(y), q);
      Assign(a);
    }

    method Assign(b: ArithUint256)
      requires Valid() && b.Valid()
      modifies pn
      ensures pn[..] == old(b.pn[..])
    {
      for i := 0 to WIDTH
        invariant b.pn[..] == old(b.pn[..]) && pn[..i] == b.pn[..i]
      {
        pn[i] := b.pn[i];
      }
    }

    /** Add a limb times a number at limb `j`. */
    method AddRow(x: Limb, y: seq<Limb>, j: nat) returns (carry: int)
      requires Valid() && |y| == WIDTH && j <= WIDTH
      modifies pn
      ensures 0 <= carry < BASE
      ensures Value() + carry * MODULUS == old(Value()) + x * Val(y[..WIDTH - j]) * Weight(j)
    {
      hide Weight, Val, RowDone;
      carry := 0;
      ghost var v := Value();
      RowStarts(x, y, j, v);
      var i := 0;
      while i + j < WIDTH
        invariant 0 <= i <= WIDTH - j && 0 <= carry < BASE
        invariant RowDone(x, y, i, j, carry, Value(), v)
      {
        Product(x, y[i], carry, pn[i + j]);
        var n := carry + pn[i + j] + x * y[i];
        ghost var before := pn[..];
        RowStep(x, y, i, j, carry, pn[..], v);
        pn[i + j] := n % BASE;
        carry := n / BASE;
        ValSet(before, i + j, pn[i + j]);
        assert pn[..] == before[i + j := pn[i + j]];
        i := i + 1;
      }
      RowEnds(x, y, i, j, carry, Value(), v);
    }

    /** The position of the highest bit set plus one, or zero. */
    method Bits() returns (r: nat)
      requires Valid()
      ensures r <= 32 * WIDTH && (r == 0 <==> Value() == 0)
      ensures r > 0 ==> Pow(2, r - 1) <= Value() < Pow(2, r)
    {
      hide Weight, Pow, Val;
      var pos := WIDTH;
      while pos > 0
        invariant 0 <= pos <= WIDTH && forall j :: pos <= j < WIDTH ==> pn[j] == 0
      {
        pos := pos - 1;
        if pn[pos] != 0 {
          var nbits := 31;
          LimbBits(pn[pos]);
          while nbits > 0
            invariant 0 <= nbits <= 31 && pn[pos] < Pow(2, nbits + 1)
          {
            TopBit(pn[pos], nbits);
            if pn[pos] / Pow(2, nbits) % 2 != 0 {
              HighestBit(pn[..], pos, nbits);
              return 32 * pos + nbits + 1;
            }
            nbits := nbits - 1;
          }
          HighestBit(pn[..], pos, 0);
          return 32 * pos + 1;
        }
      }
      ValZero(pn[..]);
      r := 0;
    }

    /** Compare with a 64-bit number, given as two words. */
    method EqualTo(low: Limb, high: Limb) returns (r: bool)
      requires Valid()
      ensures r <==> Value() == low + high * BASE
    {
      LowWords(pn[..]);
      var i := WIDTH - 1;
      while i >= 2
        invariant 1 <= i < WIDTH && forall j :: i < j < WIDTH ==> pn[j] == 0
      {
        if pn[i] != 0 {
          TopLimb(pn[..], i);
          HighWord(pn[i], i);
          return false;
        }
        i := i - 1;
      }
      if pn[1] != high {
        return false;
      }
      if pn[0] != low {
        return false;
      }
      FromWords(pn[..], low, high);
      return true;
    }

    method GetLow64() returns (r: int)
      requires Valid()
      ensures r == Value() % (BASE * BASE)
    {
      r := pn[0] + pn[1] * BASE;
      LowWords(pn[..]);
    }

    /** Shift-and-subtract division; a zero divisor is refused, after the dividend was cleared. */
    method Divide(b: ArithUint256) returns (ok: bool)
      requires Valid() && b.Valid()
      modifies pn
      ensures ok <==> old(b.Value()) != 0
      ensures Value() == if ok then old(Value()) / old(b.Value()) else 0
    {
      hide Weight, Pow, Val;
      var div := new ArithUint256.Copy(b);
      var num := new ArithUint256.Copy(this);
      ghost var n, d := Value(), b.Value();
      ValBound(pn[..]);
      ValBound(b.pn[..]);
      Clear();
      var numBits := num.Bits();
      var divBits := div.Bits();
      if divBits == 0 {
        return false;
      }
      ok := true;
      if divBits > numBits {
        SmallQuotient(n, d, numBits, divBits);
        return;
      }
      var shift: int := numBits - divBits;
      Aligned(n, d, numBits, divBits);
      div.ShiftLeft(shift);
      ClearIsLow(pn[..], shift + 1);
      hide Dividing, LowZero, Shifted;
      while shift >= 0
        invariant -1 <= shift < 32 * WIDTH
        invariant num.Valid() && div.Valid() && fresh(num.pn) && fresh(div.pn) && num.pn != div.pn
        invariant shift >= 0 ==> div.Value() == Shifted(d, shift)
        invariant Dividing(n, d, Value(), num.Value(), shift)
        invariant LowZero(pn[..], shift + 1)
      {
        var cmp := num.CompareTo(div);
        ghost var q, r := Value(), num.Value();
        DivideStep(n, d, q, r, shift);
        if cmp >= 0 {
          NoWrap(r, div.Value(), num.pn[..]);
          num.Subtract(div);
          SetBit(shift);
        } else {
          LowerLow(pn[..], shift);
        }
        HalfPower(d, shift);
        div.ShiftRight(1);
        shift := shift - 1;
      }
      DivideEnds(n, d, Value(), num.Value());
    }

    /** Set bit `shift` of a number that has no bit set up to there. */
    method SetBit(shift: nat)
      requires Valid() && shift < 32 * WIDTH && LowZero(pn[..], shift + 1)
      modifies pn
      ensures Value() == old(Value()) + Pow(2, shift) && LowZero(pn[..], shift)
    {
      hide Weight, Pow, Val;
      BitFits(pn[..], shift);
      OrInto(shift / 32, Pow(2, shift % 32), shift % 32 + 1);
      ShiftSplits(shift);
    }
  }

  // ----- Bits -----

  lemma LimbBits(x: Limb)
    ensures x < Pow(2, 32)
  {
    BaseSplits(0);
  }

  lemma PowNext(n: nat)
    ensures Pow(2, n + 1) == 2 * Pow(2, n)
  {
  }

  lemma TopBit(x: int, n: nat)
    requires 0 <= x < Pow(2, n + 1)
    ensures x / Pow(2, n) % 2 != 0 <==> x >= Pow(2, n)
  {
    PowNext(n);
    hide Pow;
    if x >= Pow(2, n) {
      DivUnique(x, Pow(2, n), 1, x - Pow(2, n));
    } else {
      DivUnique(x, Pow(2, n), 0, x);
    }
  }

  /** Bounds on a number from its highest limb that is not zero. */
  lemma {:induction false} TopLimb(s: seq<Limb>, pos: nat)
    requires pos < |s| && forall j :: pos < j < |s| ==> s[j] == 0
    ensures s[pos] * Weight(pos) <= Val(s) < (s[pos] + 1) * Weight(pos)
  {
    hide Weight;
    var n := |s| - 1;
    if pos == n {
      ValBound(s[..n]);
      Distribute(s[pos], 1, Weight(pos));
    } else {
      TopLimb(s[..n], pos);
    }
  }

  lemma HighestBit(s: seq<Limb>, pos: nat, nbits: nat)
    requires pos < |s| && (forall j :: pos < j < |s| ==> s[j] == 0)
    requires (if nbits == 0 then 1 else Pow(2, nbits)) <= s[pos] < Pow(2, nbits + 1)
    ensures Pow(2, 32 * pos + nbits) <= Val(s) < Pow(2, 32 * pos + nbits + 1) && Val(s) > 0
  {
    hide *;
    var w := Weight(pos);
    WeightIs(pos, nbits);
    WeightIs(pos, nbits + 1);
    TopLimb(s, pos);
    BaseSplits(0);
    WeightNext(pos);
    var x: int := s[pos];
    MulGrows(Pow(2, nbits), x, w);
    MulGrows(x + 1, Pow(2, nbits + 1), w);
    MulGrows(1, x, w);
  }

  lemma WeightIs(pos: nat, n: nat)
    ensures Pow(2, 32 * pos + n) == Pow(2, n) * Weight(pos)
  {
    PowAdd(2, n, 32 * pos);
  }

  lemma WeightGrows(i: nat, j: nat)
    requires i <= j
    ensures Weight(i) <= Weight(j)
  {
    PowGrows(2, 32 * i, 32 * j);
  }

  lemma HighWord(x: Limb, i: nat)
    requires x != 0 && i >= 2
    ensures x * Weight(i) >= BASE * BASE
  {
    hide *;
    WeightGrows(2, i);
    WeightZero();
    WeightNext(0);
    WeightNext(1);
    MulGrows(1, x, Weight(i));
  }

  lemma LowWords(s: seq<Limb>)
    requires |s| >= 2
    ensures s[0] + s[1] * BASE == Val(s) % (BASE * BASE)
  {
    hide Weight;
    ValSplits(s, 2);
    ValNext(s, 0);
    ValNext(s, 1);
    ValWhole(s);
    WeightZero();
    WeightNext(0);
    WeightNext(1);
    DivUnique(Val(s), BASE * BASE, Val(s[2..]), s[0] + s[1] * BASE);
  }

  /** The bits below `n` are zero. */
  ghost predicate LowZero(s: seq<Limb>, n: nat) {
    && (forall j :: 0 <= j < n / 32 && j < |s| ==> s[j] == 0)
    && (n / 32 < |s| ==> s[n / 32] % Pow(2, n % 32) == 0)
  }

  lemma ClearIsLow(s: seq<Limb>, n: nat)
    requires forall j :: 0 <= j < |s| ==> s[j] == 0
    ensures LowZero(s, n)
  {
    DivUnique(0, Pow(2, n % 32), 0, 0);
  }

  lemma LowBits(s: seq<Limb>, n: nat)
    requires LowZero(s, n + 1) && n / 32 < |s|
    ensures s[n / 32] % Pow(2, n % 32 + 1) == 0 && s[n / 32] % Pow(2, n % 32) == 0
  {
    var x, p := s[n / 32], Pow(2, n % 32);
    if n % 32 == 31 {
      assert x == 0;
      DivUnique(0, 2 * p, 0, 0);
    } else {
      assert (n + 1) / 32 == n / 32 && (n + 1) % 32 == n % 32 + 1;
    }
    hide LowZero;
    DivMod(x, 2 * p);
    MulAssoc(x / (2 * p), 2, p);
    DivUnique(x, p, x / (2 * p) * 2, 0);
  }

  lemma LowerLow(s: seq<Limb>, n: nat)
    requires LowZero(s, n + 1) && n / 32 < |s|
    ensures LowZero(s, n)
  {
    LowBits(s, n);
  }

  lemma BitFits(s: seq<Limb>, n: nat)
    requires LowZero(s, n + 1) && n / 32 < |s|
    ensures var x, p := s[n / 32], Pow(2, n % 32);
            && x % Pow(2, n % 32 + 1) == 0 && p < Pow(2, n % 32 + 1) && x + p < BASE
            && LowZero(s[n / 32 := x + p], n)
  {
    LowBits(s, n);
    LowerLow(s, n);
    var x, p, r := s[n / 32], Pow(2, n % 32), Pow(2, 31 - n % 32);
    PowNext(n % 32);
    BaseSplits(n % 32 + 1);
    hide Pow;
    DivMod(x, 2 * p);
    assert r * (2 * p) == BASE;
    DivBound(x, 2 * p, r);
    MulGrows(x / (2 * p) + 1, r, 2 * p);
    Distribute(x / (2 * p), 1, 2 * p);
    DivMod(x, p);
    Distribute(x / p, 1, p);
    DivUnique(x + p, p, x / p + 1, 0);
  }

  // ----- Division -----

  lemma SmallQuotient(n: int, d: int, numBits: nat, divBits: nat)
    requires n >= 0 && divBits > numBits && (numBits == 0 <==> n == 0) && (numBits > 0 ==> n < Pow(2, numBits))
    requires d >= Pow(2, divBits - 1)
    ensures d > 0 && n / d == 0
  {
    PowGrows(2, numBits, divBits - 1);
    DivUnique(n, d, 0, n);
  }

  lemma Aligned(n: int, d: int, numBits: nat, divBits: nat)
    requires 0 < divBits <= numBits <= 32 * WIDTH
    requires 0 <= n < Pow(2, numBits) && Pow(2, divBits - 1) <= d < Pow(2, divBits)
    ensures var shift := numBits - divBits;
            && d * Pow(2, shift) % MODULUS == Shifted(d, shift)
            && Dividing(n, d, 0, n, shift)
  {
    hide Pow, Weight;
    var shift := numBits - divBits;
    PowAdd(2, divBits, shift);
    PowAdd(2, divBits - 1, shift + 1);
    PowGrows(2, numBits, 32 * WIDTH);
    ModulusIs();
    MulLess(d, Pow(2, divBits), Pow(2, shift));
    MulGrows(Pow(2, divBits - 1), d, Pow(2, shift + 1));
    DivUnique(Shifted(d, shift), MODULUS, 0, Shifted(d, shift));
  }

  lemma ModulusIs()
    ensures MODULUS == Pow(2, 32 * WIDTH)
  {
  }

  /** The divisor, shifted. */
  ghost function Shifted(d: int, shift: nat): int {
    d * Pow(2, shift)
  }

  /** What the division loop keeps: the quotient so far and the rest make up the dividend. */
  ghost predicate Dividing(n: int, d: int, q: int, r: int, shift: int)
    requires shift >= -1
  {
    n == q * d + r && 0 <= r < Shifted(d, shift + 1)
  }

  lemma DivideStep(n: int, d: int, q: int, r: int, shift: nat)
    requires Dividing(n, d, q, r, shift)
    ensures Shifted(d, shift) >= 0
    ensures r >= Shifted(d, shift) ==> Dividing(n, d, q + Pow(2, shift), r - Shifted(d, shift), shift - 1)
    ensures r < Shifted(d, shift) ==> Dividing(n, d, q, r, shift - 1)
  {
    PowNext(shift);
    hide Pow;
    MulAssoc(2, d, Pow(2, shift));
    MulAssoc(d, 2, Pow(2, shift));
    Distribute(q, Pow(2, shift), d);
  }

  lemma HalfPower(d: int, shift: nat)
    ensures shift > 0 ==> Shifted(d, shift) / Pow(2, 1) == Shifted(d, shift - 1)
  {
    if shift > 0 {
      PowNext(shift - 1);
      assert Pow(2, 1) == 2;
      hide Pow;
      MulAssoc(2, d, Pow(2, shift - 1));
      MulAssoc(d, 2, Pow(2, shift - 1));
    }
  }

  lemma DivideEnds(n: int, d: int, q: int, r: int)
    requires Dividing(n, d, q, r, -1)
    ensures d > 0 && q == n / d
  {
    assert Pow(2, 0) == 1;
    DivUnique(n, d, q, r);
  }

  lemma NoWrap(r: int, x: int, s: seq<Limb>)
    requires r == Val(s) && |s| == WIDTH && 0 <= x <= r
    ensures (r - x) % MODULUS == r - x
  {
    ValBound(s);
    DivUnique(r - x, MODULUS, 0, r - x);
  }

  /** The first `i` limbs of the row are added at limb `j`. */
  ghost predicate RowDone(x: Limb, y: seq<Limb>, i: nat, j: nat, carry: int, value: int, v: int) {
    i <= |y| && value + carry * Weight(i + j) == v + x * Val(y[..i]) * Weight(j)
  }

  lemma RowStarts(x: Limb, y: seq<Limb>, j: nat, v: int)
    ensures RowDone(x, y, 0, j, 0, v, v)
  {
    ValWhole(y);
  }

  lemma RowEnds(x: Limb, y: seq<Limb>, i: nat, j: nat, carry: int, value: int, v: int)
    requires RowDone(x, y, i, j, carry, value, v) && i + j == WIDTH
    ensures i <= |y| && value + carry * MODULUS == v + x * Val(y[..i]) * Weight(j)
  {
  }

  lemma RowStep(x: Limb, y: seq<Limb>, i: nat, j: nat, carry: int, s: seq<Limb>, v: int)
    requires i < |y| && i + j < |s| && 0 <= carry < BASE && RowDone(x, y, i, j, carry, Val(s), v)
    ensures var n := carry + s[i + j] + x * y[i];
            RowDone(x, y, i + 1, j, n / BASE, Val(s) + (n % BASE - s[i + j]) * Weight(i + j), v)
  {
    hide Weight, Val;
    var xy := x * y[i];
    var n := carry + s[i + j] + xy;
    RowArith(Val(s), carry, s[i + j], xy, n, v + x * Val(y[..i]) * Weight(j), i + j);
    ValNext(y, i);
    WeightAdd(i, j);
    Expand(x, Val(y[..i]), y[i], Weight(i), Weight(j));
  }

  lemma RowArith(value: int, carry: int, d: int, xy: int, n: int, sum: int, k: nat)
    requires value + carry * Weight(k) == sum && n == carry + d + xy
    ensures value + (n % BASE - d) * Weight(k) + n / BASE * Weight(k + 1) == sum + xy * Weight(k)
  {
    hide Weight;
    var w, q, r := Weight(k), n / BASE, n % BASE;
    WeightNext(k);
    DivMod(n, BASE);
    Distribute(r, d, w);
    MulAssoc(q, BASE, w);
    Distribute(q * BASE, r, w);
    Distribute(carry + d, xy, w);
    Distribute(carry, d, w);
  }

  lemma Expand(x: int, v: int, y: int, wi: int, wj: int)
    ensures x * (v + y * wi) * wj == x * v * wj + x * y * (wi * wj)
  {
    Distribute(v, y * wi, x);
    Distribute(x * v, x * (y * wi), wj);
    MulAssoc(x, y, wi);
    MulAssoc(x * y, wi, wj);
  }

  lemma MultiplyStep(x: seq<Limb>, y: seq<Limb>, j: nat, before: int, after: int, carry: int, q: int)
    requires j < |x| == WIDTH && |y| == WIDTH
    requires after + carry * MODULUS == before + x[j] * Val(y[..WIDTH - j]) * Weight(j)
    requires Val(x[..j]) * Val(y) == before + q * MODULUS
    ensures Val(x[..j + 1]) * Val(y) == after + (q + carry + x[j] * Val(y[WIDTH - j..])) * MODULUS
  {
    hide Weight, Val;
    var low, top := Val(y[..WIDTH - j]), Val(y[WIDTH - j..]);
    ValNext(x, j);
    ValSplits(y, WIDTH - j);
    WeightAdd(WIDTH - j, j);
    Distribute(Val(x[..j]), x[j] * Weight(j), Val(y));
    Expand(x[j], low, top, Weight(WIDTH - j), Weight(j));
    MulAssoc(x[j], Weight(j), Val(y));
    MulAssoc(x[j], Val(y), Weight(j));
    Distribute(q + carry, x[j] * top, MODULUS);
    Distribute(q, carry, MODULUS);
  }

  lemma {:induction false} ValSplits(s: seq<Limb>, n: nat)
    requires n <= |s|
    ensures Val(s) == Val(s[..n]) + Val(s[n..]) * Weight(n)
  {
    if n == |s| {
      assert s[..n] == s && s[n..] == [];
    } else {
      var m := |s| - 1;
      ValSplits(s[..m], n);
      assert s[..m][..n] == s[..n] && s[..m][n..] == s[n..][..m - n];
      hide Weight;
      WeightAdd(m - n, n);
      Distribute(Val(s[n..m]), s[m] * Weight(m - n), Weight(n));
      MulAssoc(s[m], Weight(m - n), Weight(n));
    }
  }

  /** Neither 64-bit sum of a limb product overflows, and its high half is a limb. */
  lemma Product(a: Limb, b: Limb, carry: Limb, c: Limb)
    ensures 0 <= carry + c + a * b < BASE * BASE && 0 <= (carry + c + a * b) / BASE < BASE
  {
    ProductBound(a, b, BASE - 1);
    DivBound(carry + c + a * b, BASE, BASE);
  }

  lemma ProductBound(a: int, b: int, m: int)
    requires 0 <= a <= m && 0 <= b <= m
    ensures 0 <= a * b <= m * m
  {
    MulGrows(a, m, b);
    MulGrows(b, m, m);
  }

  /** A limb shifted right by `s` bits: what stays and what goes to the limb before. */
  lemma SplitRight(a: Limb, s: nat)
    requires s < 32
    ensures var hi, lo := a / Pow(2, s), a * Pow(2, 32 - s) % BASE;
            && a * Pow(2, 32 - s) == hi * BASE + lo
            && 0 <= hi < Pow(2, 32 - s) <= BASE && (s == 0 ==> lo == 0)
            && 0 <= lo < BASE && lo % Pow(2, 32 - s) == 0 && lo + Pow(2, 32 - s) <= BASE
  {
    hide Pow;
    BaseSplits(s);
    BaseSplits(32 - s);
    Split(a, Pow(2, s), Pow(2, 32 - s));
  }

  lemma RightStep(a: seq<Limb>, i: nat, shift: nat, hi: int, lo: int, before: int, after: int)
    requires i < |a| && hi == a[i] / Pow(2, shift % 32) && a[i] * Pow(2, 32 - shift % 32) == hi * BASE + lo
    requires before == Val(a[..i]) / Pow(2, shift)
    requires var j := i - shift / 32;
             after == before + (if j - 1 >= 0 then lo * Weight(j - 1) else 0) + (if j >= 0 then hi * Weight(j) else 0)
    ensures after == Val(a[..i + 1]) / Pow(2, shift)
  {
    hide Val, Pow, Weight;
    var k, j := shift / 32, i - shift / 32;
    ValNext(a, i);
    ValBound(a[..i]);
    ValBound(a[..i + 1]);
    if j < 0 {
      BelowShift(Val(a[..i + 1]), i + 1, shift);
      BelowShift(Val(a[..i]), i, shift);
    } else if j == 0 {
      BelowShift(Val(a[..i]), i, shift);
      FirstLimb(Val(a[..i]), a[i], i, shift);
    } else {
      LaterLimb(Val(a[..i]), a[i], i, shift, hi, lo);
    }
  }

  lemma BelowShift(v: int, i: nat, shift: nat)
    requires 0 <= v < Weight(i) && 32 * i <= shift
    ensures v / Pow(2, shift) == 0
  {
    PowGrows(2, 32 * i, shift);
    hide Pow;
    DivUnique(v, Pow(2, shift), 0, v);
  }

  lemma FirstLimb(v: int, x: Limb, i: nat, shift: nat)
    requires 0 <= v < Weight(i) && i == shift / 32
    ensures (v + x * Weight(i)) / Pow(2, shift) == x / Pow(2, shift % 32) && Weight(0) == 1
  {
    WeightZero();
    hide Pow, Weight;
    ShiftSplits(shift);
    DivUnique(v + x * Weight(i), Weight(i), x, v);
    WeightNext(i);
    MulGrows(0, x, Weight(i));
    DivDiv(v + x * Weight(i), Weight(i), Pow(2, shift % 32));
  }

  lemma LaterLimb(v: int, x: Limb, i: nat, shift: nat, hi: int, lo: int)
    requires v >= 0 && i > shift / 32 && x * Pow(2, 32 - shift % 32) == hi * BASE + lo
    ensures var j := i - shift / 32;
            (v + x * Weight(i)) / Pow(2, shift) == v / Pow(2, shift) + lo * Weight(j - 1) + hi * Weight(j)
  {
    hide Pow, Weight;
    var j, s, p := i - shift / 32, shift % 32, Pow(2, shift);
    var u := Pow(2, 32 - s);
    WeightSplits(i, shift);
    WeightNext(j - 1);
    Distribute(hi * BASE, lo, Weight(j - 1));
    MulAssoc(hi, BASE, Weight(j - 1));
    MulAssoc(x, u, Weight(j - 1));
    MulAssoc(x * u, Weight(j - 1), p);
    MulAssoc(x, u * Weight(j - 1), p);
    DivMod(v, p);
    Distribute(v / p, x * u * Weight(j - 1), p);
    DivUnique(v + x * Weight(i), p, v / p + x * u * Weight(j - 1), v % p);
  }

  lemma WeightSplits(i: nat, shift: nat)
    requires i > shift / 32
    ensures Weight(i) == Pow(2, 32 - shift % 32) * Weight(i - shift / 32 - 1) * Pow(2, shift)
  {
    var s, j := shift % 32, i - shift / 32;
    PowAdd(2, 32 - s, 32 * (j - 1));
    PowAdd(2, 32 - s + 32 * (j - 1), shift);
    assert 32 * i == 32 - s + 32 * (j - 1) + shift;
  }

  lemma AddedIs(x: int, j: nat)
    ensures Added(x, j) == if j < WIDTH then x * Weight(j) else 0
    ensures x >= 0 ==> Lost(x, j) >= 0
  {
  }

  /** A limb shifted left by `s` bits: what goes to the next limb and what stays. */
  lemma SplitLimb(a: Limb, s: nat)
    requires s < 32
    ensures var hi, lo := a / Pow(2, 32 - s), a * Pow(2, s) % BASE;
            && a * Pow(2, s) == hi * BASE + lo
            && 0 <= hi < Pow(2, s) <= BASE && (s == 0 ==> hi == 0)
            && 0 <= lo < BASE && lo % Pow(2, s) == 0 && lo + Pow(2, s) <= BASE
  {
    hide Pow;
    BaseSplits(s);
    Split(a, Pow(2, 32 - s), Pow(2, s));
  }

  /** Multiplying by one factor of the base splits a limb at the other. */
  lemma Split(a: Limb, u: nat, p: nat)
    requires u > 0 && p > 0 && u * p == BASE
    ensures var hi, lo := a / u, a * p % BASE;
            a * p == hi * BASE + lo && 0 <= hi < p && 0 <= lo < BASE && lo % p == 0 && lo + p <= BASE
  {
    var hi, r := a / u, a % u;
    DivMod(a, u);
    SplitArith(a, hi, u, r, p);
    DivUnique(a * p, BASE, hi, r * p);
    DivUnique(r * p, p, r, 0);
    assert p * u == u * p;
    DivBound(a, u, p);
  }

  lemma SplitArith(a: int, hi: int, u: int, r: int, p: int)
    requires a == hi * u + r && 0 <= r < u && p > 0
    ensures a * p == hi * (u * p) + r * p && 0 <= r * p && r * p + p <= u * p
  {
    MulAssoc(hi, u, p);
    Distribute(hi * u, r, p);
    MulGrows(0, r, p);
    MulGrows(r, u - 1, p);
    Distribute(u, 1, p);
  }

  lemma PowBase()
    ensures Pow(2, 32) == BASE && Pow(2, 0) == 1
  {
    assert Pow(2, 8) == 256;
    PowAdd(2, 8, 8);
    PowAdd(2, 16, 16);
  }

  lemma BaseSplits(s: nat)
    requires s <= 32
    ensures Pow(2, 32 - s) * Pow(2, s) == BASE && Pow(2, s) * Pow(2, 32 - s) == BASE && Pow(2, s) <= BASE && Pow(2, 0) == 1
  {
    hide *;
    PowBase();
    PowAdd(2, 32 - s, s);
    PowGrows(2, s, 32);
  }

  /** How often the modulus fits into a limb of weight `j`, if it is beyond the array. */
  ghost function Lost(x: int, j: nat): int {
    if j < WIDTH then 0 else x * Weight(j - WIDTH)
  }

  lemma LostIs(x: int, j: nat)
    ensures x * Weight(j) == Added(x, j) + Lost(x, j) * MODULUS
    ensures x >= 0 ==> Lost(x, j) >= 0
  {
    if j >= WIDTH {
      hide Weight, Pow;
      assert Weight(j) == Weight(j - WIDTH) * MODULUS by {
        WeightAdd(j - WIDTH, WIDTH);
      }
      MulAssoc(x, Weight(j - WIDTH), MODULUS);
    }
  }

  lemma WeightAdd(i: nat, j: nat)
    ensures Weight(i + j) == Weight(i) * Weight(j)
  {
    PowAdd(2, 32 * i, 32 * j);
  }

  lemma ShiftSplits(shift: nat)
    ensures Pow(2, shift) == Weight(shift / 32) * Pow(2, shift % 32)
  {
    PowAdd(2, 32 * (shift / 32), shift % 32);
  }

  /** The limb `i` of a shifted number goes to the limbs `i + k` and `i + k + 1`. */
  lemma LimbShifted(x: Limb, i: nat, shift: nat, hi: int, lo: int)
    requires x * Pow(2, shift % 32) == hi * BASE + lo
    ensures var j := i + shift / 32;
            x * Weight(i) * Pow(2, shift) == hi * Weight(j + 1) + lo * Weight(j)
  {
    hide Weight, Pow;
    var k, p := shift / 32, Pow(2, shift % 32);
    ShiftSplits(shift);
    WeightAdd(i, k);
    WeightNext(i + k);
    calc {
      x * Weight(i) * (Weight(k) * p);
      { Shuffle(x, Weight(i), Weight(k), p); }
      x * p * (Weight(i) * Weight(k));
      (hi * BASE + lo) * Weight(i + k);
      { Distribute(hi * BASE, lo, Weight(i + k)); MulAssoc(hi, BASE, Weight(i + k)); }
      hi * Weight(i + k + 1) + lo * Weight(i + k);
    }
  }

  lemma Shuffle(a: int, b: int, c: int, d: int)
    ensures a * b * (c * d) == a * d * (b * c)
  {
    MulAssoc(a * b, c, d);
    MulAssoc(a, b, c);
    MulAssoc(a, b * c, d);
    MulAssoc(a, d, b * c);
  }

  /** A limb added at its place, if that is inside the array. */
  ghost function Added(x: int, j: nat): int {
    if j < WIDTH then x * Weight(j) else 0
  }

  /** The first `i` limbs are shifted; `q` times the modulus was lost. */
  ghost predicate LeftDone(a: seq<Limb>, i: nat, shift: nat, value: int, q: int) {
    i <= |a| && q >= 0 && Val(a[..i]) * Pow(2, shift) == value + q * MODULUS
  }

  lemma LeftStarts(a: seq<Limb>, shift: nat)
    ensures LeftDone(a, 0, shift, 0, 0)
  {
    ValWhole(a);
  }

  lemma LeftEnds(a: seq<Limb>, shift: nat, s: seq<Limb>, q: int)
    requires LeftDone(a, |a|, shift, Val(s), q) && |s| == WIDTH
    ensures Val(s) == Val(a) * Pow(2, shift) % MODULUS
  {
    hide Weight, Pow, Val;
    ValWhole(a);
    ValBound(s);
    IsMod(Val(s), Val(a) * Pow(2, shift), q);
  }

  lemma LeftStep(a: seq<Limb>, i: nat, shift: nat, hi: int, lo: int, before: int, after: int, q: int)
    requires i < |a| && a[i] * Pow(2, shift % 32) == hi * BASE + lo && hi >= 0 && lo >= 0
    requires LeftDone(a, i, shift, before, q)
    requires var j := i + shift / 32; after == before + Added(hi, j + 1) + Added(lo, j)
    ensures var j := i + shift / 32; LeftDone(a, i + 1, shift, after, q + Lost(hi, j + 1) + Lost(lo, j))
  {
    hide Weight, Pow, Lost, Val, Added;
    var j := i + shift / 32;
    LostIs(hi, j + 1);
    LostIs(lo, j);
    ValNext(a, i);
    LimbShifted(a[i], i, shift, hi, lo);
    LeftArith(Val(a[..i]), a[i] * Weight(i), Pow(2, shift), before, q, MODULUS, Lost(hi, j + 1), Lost(lo, j),
              Added(hi, j + 1), Added(lo, j));
  }

  lemma LeftArith(v: int, x: int, p: int, before: int, q: int, m: int, lh: int, ll: int, ah: int, al: int)
    requires v * p == before + q * m && x * p == (ah + lh * m) + (al + ll * m)
    ensures (v + x) * p == before + ah + al + (q + lh + ll) * m
  {
    Distribute(v, x, p);
    Distribute(q + lh, ll, m);
    Distribute(q, lh, m);
  }

  lemma BumpLimb(s: seq<Limb>, i: nat)
    requires i < |s|
    ensures Val(s[i := if s[i] == BASE - 1 then 0 else s[i] + 1]) ==
            Val(s) + Weight(i) - if s[i] == BASE - 1 then Weight(i + 1) else 0
  {
    hide Weight, Val;
    var x: Limb := if s[i] == BASE - 1 then 0 else s[i] + 1;
    ValSet(s, i, x);
    WeightNext(i);
    if s[i] == BASE - 1 {
      Distribute(0, BASE - 1, Weight(i));
      Distribute(BASE, 1, Weight(i));
    } else {
      assert (x - s[i]) * Weight(i) == Weight(i);
    }
  }

  lemma DropLimb(s: seq<Limb>, i: nat)
    requires i < |s|
    ensures Val(s[i := if s[i] == 0 then BASE - 1 else s[i] - 1]) ==
            Val(s) - Weight(i) + if s[i] == 0 then Weight(i + 1) else 0
  {
    hide Weight, Val;
    var x: Limb := if s[i] == 0 then BASE - 1 else s[i] - 1;
    ValSet(s, i, x);
    WeightNext(i);
    if s[i] == 0 {
      Distribute(BASE, 1, Weight(i));
    } else {
      var w: int := Weight(i);
      assert (x - s[i]) * w == -w;
    }
  }

  lemma Stays(v: int, s: seq<Limb>)
    requires v == Val(s) && |s| == WIDTH
    ensures v == v % MODULUS
  {
    ValBound(s);
    DivUnique(v, MODULUS, 0, v);
  }

  lemma ModulusPositive()
    ensures MODULUS > 0
  {
  }

  lemma SubMod(x: int, y: int, m: int)
    requires m > 0
    ensures (x + (m - y) % m) % m == (x - y) % m
  {
    DivMod(m - y, m);
    DivMod(x - y, m);
    Distribute((x - y) / m, 1 - (m - y) / m, m);
    DivUnique(x + (m - y) % m, m, (x - y) / m + 1 - (m - y) / m, (x - y) % m);
  }

  lemma {:induction false} Complement(s: seq<Limb>, t: seq<Limb>)
    requires |s| == |t| && forall j :: 0 <= j < |s| ==> t[j] == BASE - 1 - s[j]
    ensures Val(t) == Weight(|s|) - 1 - Val(s)
  {
    hide Weight;
    if s == [] {
      WeightZero();
    } else {
      var n := |s| - 1;
      Complement(s[..n], t[..n]);
      WeightNext(n);
      Distribute(BASE - 1, s[n], Weight(n));
      Distribute(BASE, 1, Weight(n));
    }
  }

  /** The first difference from the top decides. */
  lemma {:induction false} TopDecides(s: seq<Limb>, t: seq<Limb>, i: nat)
    requires |s| == |t| && i < |s| && s[i] < t[i] && s[i + 1..] == t[i + 1..]
    ensures Val(s) < Val(t)
  {
    hide Weight;
    var n := |s| - 1;
    if i == n {
      ValBound(s[..n]);
      ValBound(t[..n]);
      WeightNext(n);
      MulGrows(s[n] + 1, t[n], Weight(n));
      Distribute(s[n], 1, Weight(n));
    } else {
      assert s[i + 1..][n - i - 1] == t[i + 1..][n - i - 1];
      assert s[..n][i + 1..] == s[i + 1..][..n - i - 1];
      assert t[..n][i + 1..] == t[i + 1..][..n - i - 1];
      TopDecides(s[..n], t[..n], i);
    }
  }

  lemma FromWords(s: seq<Limb>, low: Limb, high: Limb)
    requires |s| >= 2 && s[0] == low && s[1] == high && (forall i :: 2 <= i < |s| ==> s[i] == 0)
    ensures Val(s) == low + high * BASE
    decreases |s|
  {
    hide Weight;
    if |s| == 2 {
      WeightZero();
      ValNext(s, 0);
      ValNext(s, 1);
      ValWhole(s);
      WeightNext(0);
    } else {
      FromWords(s[..|s| - 1], low, high);
    }
  }
}
