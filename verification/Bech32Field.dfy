/**
 What the checksum of src/bech32.cpp and src/blech32.cpp is: values are coefficients of a polynomial
 over the field with 32 elements, and the remainder is the one of division by the generator.
 */
module Bech32Field {
  import opened Power
  import opened Bech32

  // ----- The field -----

  const UNIT := Symbol(false, false, false, false, true)

  /** Times the element `a`, for which a^5 = a^3 + 1. */
  function Twice(s: Symbol): Symbol {
    var shifted := Symbol(s.b8, s.b4, s.b2, s.b1, false);
    if s.b16 then Xor(shifted, Symbol(false, true, false, false, true)) else shifted
  }

  /** The product: 1, 2, 4, 8 and 16 times `y`, added up as the bits of `x` say. */
  function Times(x: Symbol, y: Symbol): Symbol {
    Choose(x, Multiplied(y))
  }

  function Multiplied(y: Symbol): Column {
    var y2 := Twice(y);
    var y4 := Twice(y2);
    var y8 := Twice(y4);
    Column(y, y2, y4, y8, Twice(y8))
  }

  /** One times anything is that, and the example 5 * 26 = 9 of the source. */
  lemma TimesUnit(x: Symbol)
    ensures Times(x, UNIT) == x && Times(x, ZERO) == ZERO
    ensures Times(Symbol(false, false, true, false, true), Symbol(true, true, false, true, false)) == Symbol(false, true, false, false, true)
  {
  }

  /** The same on numbers. */
  function Double(n: nat): nat
    requires n < 32
  {
    if n < 16 then 2 * n else if n % 8 >= 4 then 2 * n - 39 else 2 * n - 23
  }

  lemma DoubleSym(n: nat)
    requires n < 32
    ensures Sym(Double(n)) == Twice(Sym(n))
  {
    NumberOfSym(n);
    hide Sym;
    DoubleNumber(Sym(n));
    SymOfNumber(Twice(Sym(n)));
  }

  lemma DoubleNumber(s: Symbol)
    ensures Double(Number(s)) == Number(Twice(s))
  {
  }

  // ----- The generators -----

  /** The coefficients below the leading one: x^6 + 29x^5 + ... + 18, and x^12 + 31x^10 + ... + 6. */
  const SHORT: seq<nat> := [29, 22, 20, 21, 29, 18]
  const LONG: seq<nat> := [0, 31, 10, 18, 31, 14, 18, 0, 23, 22, 4, 6]

  function Coefficients(long: bool): (g: seq<nat>)
    ensures |g| == Size(long)
  {
    if long then LONG else SHORT
  }

  function Coefficient(long: bool, i: nat): Symbol
    requires i < Size(long)
  {
    Sym(Coefficients(long)[i])
  }

  /** The last `k` groups of the packed numbers are the first `k` numbers, and 2, 4, 8 and 16 times them. */
  predicate AreMultiples(w1: nat, w2: nat, w4: nat, w8: nat, w16: nat, ns: seq<nat>, k: nat)
    requires k <= |ns|
  {
    k == 0 ||
    (&& w1 % 32 == ns[k - 1] && w2 % 32 == Double(w1 % 32) && w4 % 32 == Double(w2 % 32)
     && w8 % 32 == Double(w4 % 32) && w16 % 32 == Double(w8 % 32)
     && AreMultiples(w1 / 32, w2 / 32, w4 / 32, w8 / 32, w16 / 32, ns, k - 1))
  }

  lemma {:induction false} MultiplesAt(w1: nat, w2: nat, w4: nat, w8: nat, w16: nat, ns: seq<nat>, k: nat, i: nat)
    requires i < k <= |ns| && AreMultiples(w1, w2, w4, w8, w16, ns, k)
    ensures Columns(w1, w2, w4, w8, w16, k - 1 - i) == Multiplied(Sym(ns[i]))
    decreases k
  {
    hide Group, Sym, Double, Twice;
    var j := if i + 1 < k then k - 2 - i else 0;
    GroupLow(w1, j);
    GroupLow(w2, j);
    GroupLow(w4, j);
    GroupLow(w8, j);
    GroupLow(w16, j);
    if i + 1 < k {
      MultiplesAt(w1 / 32, w2 / 32, w4 / 32, w8 / 32, w16 / 32, ns, k - 1, i);
    } else {
      DoubleSym(w1 % 32);
      DoubleSym(w2 % 32);
      DoubleSym(w4 % 32);
      DoubleSym(w8 % 32);
    }
  }

  lemma ShortMultiples()
    ensures AreMultiples(0x3b6a57b2, 0x26508e6d, 0x1ea119fa, 0x3d4233dd, 0x2a1462b3, SHORT, 6)
  {
    hide Double;
    Doubled();
    assert AreMultiples(0x1d, 0x13, 0xf, 0x1e, 0x15, SHORT, 1);
    assert AreMultiples(0x3b6, 0x265, 0x1ea, 0x3d4, 0x2a1, SHORT, 2);
    assert AreMultiples(0x76d4, 0x4ca1, 0x3d42, 0x7a84, 0x5428, SHORT, 3);
    assert AreMultiples(0xeda95, 0x99423, 0x7a846, 0xf508c, 0xa8518, SHORT, 4);
    assert AreMultiples(0x1db52bd, 0x1328473, 0xf508cf, 0x1ea119e, 0x150a315, SHORT, 5);
  }

  lemma LongMultiples()
    ensures AreMultiples(0x7d52fba40bd886, 0x5e8dbf1a03950c, 0x1c3a3c74072a18, 0x385d72fa0e5139, 0x7093e5a608865b, LONG, 12)
  {
    hide Double;
    Doubled();
    assert AreMultiples(0x0, 0x0, 0x0, 0x0, 0x0, LONG, 1);
    assert AreMultiples(0x1f, 0x17, 0x7, 0xe, 0x1c, LONG, 2);
    assert AreMultiples(0x3ea, 0x2f4, 0xe1, 0x1c2, 0x384, LONG, 3);
    assert AreMultiples(0x7d52, 0x5e8d, 0x1c3a, 0x385d, 0x7093, LONG, 4);
    assert AreMultiples(0xfaa5f, 0xbd1b7, 0x38747, 0x70bae, 0xe127c, LONG, 5);
    assert AreMultiples(0x1f54bee, 0x17a36fc, 0x70e8f1, 0xe175cb, 0x1c24f96, LONG, 6);
    assert AreMultiples(0x3ea97dd2, 0x2f46df8d, 0xe1d1e3a, 0x1c2eb97d, 0x3849f2d3, LONG, 7);
    assert AreMultiples(0x7d52fba40, 0x5e8dbf1a0, 0x1c3a3c740, 0x385d72fa0, 0x7093e5a60, LONG, 8);
    assert AreMultiples(0xfaa5f74817, 0xbd1b7e3407, 0x387478e80e, 0x70bae5f41c, 0xe127cb4c11, LONG, 9);
    assert AreMultiples(0x1f54bee902f6, 0x17a36fc680e5, 0x70e8f1d01ca, 0xe175cbe8394, 0x1c24f9698221, LONG, 10);
    assert AreMultiples(0x3ea97dd205ec4, 0x2f46df8d01ca8, 0xe1d1e3a03950, 0x1c2eb97d07289, 0x3849f2d304432, LONG, 11);
  }

  lemma Doubled()
    ensures Double(0) == 0 && Double(1) == 2 && Double(2) == 4 && Double(3) == 6
    ensures Double(4) == 8 && Double(5) == 10 && Double(6) == 12 && Double(7) == 14
    ensures Double(8) == 16 && Double(9) == 18 && Double(10) == 20 && Double(11) == 22
    ensures Double(12) == 24 && Double(13) == 26 && Double(14) == 28 && Double(15) == 30
    ensures Double(16) == 9 && Double(17) == 11 && Double(18) == 13 && Double(19) == 15
    ensures Double(20) == 1 && Double(21) == 3 && Double(22) == 5 && Double(23) == 7
    ensures Double(24) == 25 && Double(25) == 27 && Double(26) == 29 && Double(27) == 31
    ensures Double(28) == 17 && Double(29) == 19 && Double(30) == 21 && Double(31) == 23
  {
  }

  /** The packed multiples of the generator are its coefficients times 1, 2, 4, 8 and 16 in the field. */
  lemma GeneratorIs(long: bool, i: nat)
    requires i < Size(long)
    ensures Generator(long, i) == Multiplied(Coefficient(long, i))
  {
    var w := Multiples(long);
    hide Columns, Multiplied, Sym;
    if long {
      LongMultiples();
    } else {
      ShortMultiples();
    }
    MultiplesAt(w.w1, w.w2, w.w4, w.w8, w.w16, Coefficients(long), Size(long), i);
  }

  /** One step: multiply by x, add `v`, and subtract the leading coefficient times the generator. */
  lemma StepDivides(long: bool, c: seq<Symbol>, v: Symbol, i: nat)
    requires Remainder(long, c) && i < Size(long)
    ensures Step(long, c, v)[i] == Xor(if i + 1 < Size(long) then c[i + 1] else v, Times(c[0], Coefficient(long, i)))
  {
    StepAt(long, c, v, i);
    GeneratorIs(long, i);
    hide Step, Generator, Choose, Multiplied, Coefficient;
  }

  // ----- Polynomials -----

  /** The whole generator, highest coefficient first. */
  function Divisor(long: bool): (g: seq<Symbol>)
    ensures |g| == Size(long) + 1
  {
    [UNIT] + seq(Size(long), i requires 0 <= i < Size(long) => Coefficient(long, i))
  }

  function Scaled(x: Symbol, p: seq<Symbol>): (r: seq<Symbol>)
    ensures |r| == |p| && forall i :: 0 <= i < |p| ==> r[i] == Times(x, p[i])
  {
    seq(|p|, i requires 0 <= i < |p| => Times(x, p[i]))
  }

  /** The product of a polynomial and the generator, term by term. */
  function Product(long: bool, q: seq<Symbol>): (p: seq<Symbol>)
    ensures |p| == |q| + Size(long)
  {
    if q == [] then Zero(Size(long)) else
    var n := |q| - 1;
    XorAll(Product(long, q[..n]) + [ZERO], Zero(n) + Scaled(q[n], Divisor(long)))
  }

  /** `p` is the generator times `q` plus `r`. */
  ghost predicate Divided(long: bool, p: seq<Symbol>, q: seq<Symbol>, r: seq<Symbol>) {
    && |r| == Size(long) && |p| == |q| + Size(long)
    && p == XorAll(Product(long, q), Zero(|q|) + r)
  }

  lemma ProductNext(long: bool, q: seq<Symbol>, x: Symbol, i: nat)
    requires i <= |q| + Size(long)
    ensures |Product(long, q + [x])| == |q| + 1 + Size(long)
    ensures Product(long, q + [x])[i] ==
            Xor(if i < |q| + Size(long) then Product(long, q)[i] else ZERO,
                if i < |q| then ZERO else Times(x, Divisor(long)[i - |q|]))
  {
    hide *;
    ProductIs(long, q + [x]);
    assert (q + [x])[..|q|] == q;
  }

  lemma ProductIs(long: bool, q: seq<Symbol>)
    requires q != []
    ensures var n := |q| - 1;
            Product(long, q) == XorAll(Product(long, q[..n]) + [ZERO], Zero(n) + Scaled(q[n], Divisor(long)))
  {
    hide Divisor, Scaled, XorAll;
  }

  lemma DivisorAt(long: bool, j: nat)
    requires j <= Size(long)
    ensures Divisor(long)[j] == if j == 0 then UNIT else Coefficient(long, j - 1)
  {
    hide Coefficient;
  }

  /** The next remainder, place by place of what was divided. */
  lemma NextPlace(long: bool, r: seq<Symbol>, v: Symbol, j: nat)
    requires Remainder(long, r) && j <= Size(long)
    ensures Xor(Times(r[0], Divisor(long)[j]), if j == 0 then ZERO else Step(long, r, v)[j - 1]) == if j < Size(long) then r[j] else v
  {
    hide *;
    RemainderSize(long, r);
    DivisorAt(long, j);
    if j == 0 {
      TimesUnit(r[0]);
      XorLaws(r[0], ZERO);
    } else {
      var x, y := if j < Size(long) then r[j] else v, Times(r[0], Coefficient(long, j - 1));
      StepDivides(long, r, v, j - 1);
      XorLaws(x, y);
      XorLaws(y, Xor(x, y));
    }
  }

  lemma RemainderSize(long: bool, r: seq<Symbol>)
    ensures Remainder(long, r) <==> |r| == Size(long)
  {
  }

  /** Dividing step by step: the remainder is what Poly computes. */
  lemma {:induction false} PolyDivides(long: bool, c: seq<Symbol>, vs: seq<Symbol>) returns (q: seq<Symbol>)
    requires Remainder(long, c)
    ensures |q| == |vs| && Divided(long, c + vs, q, Poly(long, c, vs))
  {
    hide *;
    RemainderSize(long, c);
    if vs == [] {
      q := [];
      DividedStart(long, c);
      assert c + vs == c;
    } else {
      var n := |vs| - 1;
      var q0 := PolyDivides(long, c, vs[..n]);
      var r := Poly(long, c, vs[..n]);
      RemainderSize(long, r);
      q := q0 + [r[0]];
      PolyNext(long, c, vs);
      DividedNext(long, c + vs[..n], q0, r, vs[n]);
      assert c + vs[..n] + [vs[n]] == c + vs;
    }
  }

  lemma DividedStart(long: bool, c: seq<Symbol>)
    requires Remainder(long, c)
    ensures Divided(long, c, [], c) && Poly(long, c, []) == c
  {
    XorAllLaws(c, c);
    hide XorAll;
    assert Zero(0) + c == c;
  }

  lemma PolyNext(long: bool, c: seq<Symbol>, vs: seq<Symbol>)
    requires Remainder(long, c) && vs != []
    ensures Poly(long, c, vs) == Step(long, Poly(long, c, vs[..|vs| - 1]), vs[|vs| - 1])
  {
    hide Step;
  }

  lemma DividedNext(long: bool, p: seq<Symbol>, q: seq<Symbol>, r: seq<Symbol>, v: Symbol)
    requires Divided(long, p, q, r)
    ensures Divided(long, p + [v], q + [r[0]], Step(long, r, v))
  {
    var s, q' := Step(long, r, v), q + [r[0]];
    hide Step, Product, Times, Divisor, Xor;
    forall i | 0 <= i < |p| + 1 ensures (p + [v])[i] == XorAll(Product(long, q'), Zero(|q'|) + s)[i] {
      ProductNext(long, q, r[0], i);
      PlaceNext(long, p, q, r, v, i);
    }
  }

  lemma PlaceNext(long: bool, p: seq<Symbol>, q: seq<Symbol>, r: seq<Symbol>, v: Symbol, i: nat)
    requires Divided(long, p, q, r) && i <= |p|
    ensures (p + [v])[i] ==
            Xor(Xor(if i < |p| then Product(long, q)[i] else ZERO, if i < |q| then ZERO else Times(r[0], Divisor(long)[i - |q|])),
                if i <= |q| then ZERO else Step(long, r, v)[i - |q| - 1])
  {
    hide Step, Product, Times, Divisor, Xor;
    var a := if i < |p| then Product(long, q)[i] else ZERO;
    if i < |q| {
      XorLaws(a, ZERO);
    } else {
      NextPlace(long, r, v, i - |q|);
      var t, s := Times(r[0], Divisor(long)[i - |q|]), if i <= |q| then ZERO else Step(long, r, v)[i - |q| - 1];
      XorAssoc(a, t, s);
      XorLaws(v, ZERO);
    }
  }

  /**
   The values with a one in front, as a polynomial, are the generator times some polynomial plus the
   remainder that is computed ...
   */
  lemma PolyModDivides(long: bool, vs: seq<Symbol>) returns (q: seq<Symbol>)
    ensures Divided(long, Zero(Size(long) - 1) + [UNIT] + vs, q, PolyMod(long, vs))
  {
    hide *;
    PolyModIs(long, vs);
    OneIs(long);
    q := PolyDivides(long, One(long), vs);
  }

  /** ... and no other remainder will do. */
  lemma PolyModIsTheRemainder(long: bool, vs: seq<Symbol>, q: seq<Symbol>, r: seq<Symbol>)
    requires Divided(long, Zero(Size(long) - 1) + [UNIT] + vs, q, r)
    ensures r == PolyMod(long, vs)
  {
    hide *;
    DividedSizes(long, Zero(Size(long) - 1) + [UNIT] + vs, q, r);
    PolyModIs(long, vs);
    OneIs(long);
    OnlyRemainder(long, One(long), vs, q, r);
  }

  lemma DividedSizes(long: bool, p: seq<Symbol>, q: seq<Symbol>, r: seq<Symbol>)
    requires Divided(long, p, q, r)
    ensures |r| == Size(long) && |p| == |q| + Size(long)
  {
    hide Product, XorAll;
  }

  lemma OneIs(long: bool)
    ensures One(long) == Zero(Size(long) - 1) + [UNIT] && Remainder(long, One(long))
  {
    hide Group, Sym;
    Digit0();
    SymOne();
    forall i | 0 <= i < Size(long) ensures One(long)[i] == if i + 1 < Size(long) then ZERO else UNIT {
      GroupLow(1, if i + 1 < Size(long) then Size(long) - 2 - i else 0);
      GroupZero(if i + 1 < Size(long) then Size(long) - 2 - i else 0);
    }
  }

  lemma SymOne()
    ensures Sym(1) == UNIT
  {
  }

  /** Whatever the quotient, the remainder is the one that Poly computes. */
  lemma {:induction false} OnlyRemainder(long: bool, c: seq<Symbol>, vs: seq<Symbol>, q: seq<Symbol>, r: seq<Symbol>)
    requires Remainder(long, c) && |q| == |vs| && Divided(long, c + vs, q, r)
    ensures r == Poly(long, c, vs)
    decreases |vs|
  {
    hide *;
    RemainderSize(long, c);
    if vs == [] {
      DividedStart(long, c);
      assert c + vs == c && q == [];
      StartOnly(long, c, r);
    } else {
      var n := |vs| - 1;
      DividedSizes(long, c + vs, q, r);
      var r0 := Before(long, q[n], r);
      BeforeDivides(long, c + vs, q, r);
      assert (c + vs)[..|c + vs| - 1] == c + vs[..n] && (c + vs)[|c + vs| - 1] == vs[n];
      OnlyRemainder(long, c, vs[..n], q[..n], r0);
      PolyNext(long, c, vs);
    }
  }

  lemma StartOnly(long: bool, c: seq<Symbol>, r: seq<Symbol>)
    requires Remainder(long, c) && Divided(long, c, [], r)
    ensures r == c
  {
    XorAllLaws(r, r);
    hide XorAll;
    assert Zero(0) + r == r;
  }

  /** The remainder before a step that had `x` as its leading coefficient and gave `r`. */
  function Before(long: bool, x: Symbol, r: seq<Symbol>): (b: seq<Symbol>)
    requires |r| == Size(long)
    ensures |b| == |r|
  {
    seq(|r|, j requires 0 <= j < |r| => Xor(Times(x, Divisor(long)[j]), if j == 0 then ZERO else r[j - 1]))
  }

  lemma BeforeDivides(long: bool, p: seq<Symbol>, q: seq<Symbol>, r: seq<Symbol>)
    requires Divided(long, p, q, r) && q != []
    ensures var n, b := |q| - 1, Before(long, q[|q| - 1], r);
            && Divided(long, p[..|p| - 1], q[..n], b)
            && Remainder(long, b) && Step(long, b, p[|p| - 1]) == r
  {
    hide *;
    DividedSizes(long, p, q, r);
    var n, x := |q| - 1, q[|q| - 1];
    var b := Before(long, x, r);
    forall i | 0 <= i < |p| - 1 ensures p[i] == XorAll(Product(long, q[..n]), Zero(n) + b)[i] {
      PlaceOfProduct(long, p, q, r, i);
      if i < n {
        XorLaws(p[i], ZERO);
      } else {
        BeforeAt(long, x, r, i - n);
      }
    }
    assert p[..|p| - 1] == XorAll(Product(long, q[..n]), Zero(n) + b);
    DividedIs(long, p[..|p| - 1], q[..n], b);
    PlaceOfProduct(long, p, q, r, |p| - 1);
    BeforeSteps(long, x, r, p[|p| - 1]);
  }

  lemma BeforeAt(long: bool, x: Symbol, r: seq<Symbol>, j: nat)
    requires |r| == Size(long) && j < |r|
    ensures Before(long, x, r)[j] == Xor(Times(x, Divisor(long)[j]), if j == 0 then ZERO else r[j - 1])
  {
    hide Times, Divisor, Xor;
  }

  lemma DividedIs(long: bool, p: seq<Symbol>, q: seq<Symbol>, r: seq<Symbol>)
    requires |r| == Size(long) && |p| == |q| + Size(long) && p == XorAll(Product(long, q), Zero(|q|) + r)
    ensures Divided(long, p, q, r)
  {
  }

  lemma PlaceOfProduct(long: bool, p: seq<Symbol>, q: seq<Symbol>, r: seq<Symbol>, i: nat)
    requires Divided(long, p, q, r) && q != [] && i < |p|
    ensures var n, x := |q| - 1, q[|q| - 1];
            p[i] == if i < n then Product(long, q[..n])[i]
                    else Xor(if i < |p| - 1 then Product(long, q[..n])[i] else ZERO,
                             Xor(Times(x, Divisor(long)[i - n]), if i == n then ZERO else r[i - n - 1]))
  {
    hide Product, Times, Divisor, Xor;
    var n, x := |q| - 1, q[|q| - 1];
    assert q == q[..n] + [x];
    ProductNext(long, q[..n], x, i);
    var a := if i < |p| - 1 then Product(long, q[..n])[i] else ZERO;
    if i < n {
      XorLaws(a, ZERO);
    } else {
      XorAssoc(a, Times(x, Divisor(long)[i - n]), if i == n then ZERO else r[i - n - 1]);
    }
  }

  lemma BeforeSteps(long: bool, x: Symbol, r: seq<Symbol>, v: Symbol)
    requires |r| == Size(long)
    requires v == Xor(ZERO, Xor(Times(x, Divisor(long)[Size(long)]), r[Size(long) - 1]))
    ensures Remainder(long, Before(long, x, r)) && Step(long, Before(long, x, r), v) == r
  {
    hide *;
    var b := Before(long, x, r);
    RemainderSize(long, b);
    TimesUnit(x);
    DivisorAt(long, 0);
    XorLaws(x, ZERO);
    BeforeAt(long, x, r, 0);
    RemainderSize(long, Step(long, b, v));
    forall i | 0 <= i < Size(long) ensures Step(long, b, v)[i] == r[i] {
      StepDivides(long, b, v, i);
      DivisorAt(long, i + 1);
      if i + 1 < Size(long) {
        BeforeAt(long, x, r, i + 1);
      }
      var y := Times(x, Coefficient(long, i));
      XorLaws(Xor(y, r[i]), ZERO);
      XorLaws(y, r[i]);
      XorLaws(r[i], y);
    }
  }

  lemma XorAssoc(a: Symbol, b: Symbol, c: Symbol)
    ensures Xor(Xor(a, b), c) == Xor(a, Xor(b, c))
  {
  }

  // ----- Known strings -----

  lemma Digits()
    ensures Sym(0) == Symbol(false, false, false, false, false) && Sym(1) == Symbol(false, false, false, false, true)
    ensures Sym(2) == Symbol(false, false, false, true, false) && Sym(3) == Symbol(false, false, false, true, true)
    ensures Sym(4) == Symbol(false, false, true, false, false) && Sym(5) == Symbol(false, false, true, false, true)
    ensures Sym(6) == Symbol(false, false, true, true, false) && Sym(7) == Symbol(false, false, true, true, true)
    ensures Sym(8) == Symbol(false, true, false, false, false) && Sym(9) == Symbol(false, true, false, false, true)
    ensures Sym(10) == Symbol(false, true, false, true, false) && Sym(11) == Symbol(false, true, false, true, true)
    ensures Sym(12) == Symbol(false, true, true, false, false) && Sym(13) == Symbol(false, true, true, false, true)
    ensures Sym(14) == Symbol(false, true, true, true, false) && Sym(15) == Symbol(false, true, true, true, true)
    ensures Sym(16) == Symbol(true, false, false, false, false) && Sym(17) == Symbol(true, false, false, false, true)
    ensures Sym(18) == Symbol(true, false, false, true, false) && Sym(19) == Symbol(true, false, false, true, true)
    ensures Sym(20) == Symbol(true, false, true, false, false) && Sym(21) == Symbol(true, false, true, false, true)
    ensures Sym(22) == Symbol(true, false, true, true, false) && Sym(23) == Symbol(true, false, true, true, true)
    ensures Sym(24) == Symbol(true, true, false, false, false) && Sym(25) == Symbol(true, true, false, false, true)
    ensures Sym(26) == Symbol(true, true, false, true, false) && Sym(27) == Symbol(true, true, false, true, true)
    ensures Sym(28) == Symbol(true, true, true, false, false) && Sym(29) == Symbol(true, true, true, false, true)
    ensures Sym(30) == Symbol(true, true, true, true, false) && Sym(31) == Symbol(true, true, true, true, true)
  {
  }

  function Syms(ns: seq<nat>): (vs: seq<Symbol>)
    ensures |vs| == |ns| && forall i :: 0 <= i < |ns| ==> vs[i] == Sym(ns[i])
  {
    seq(|ns|, i requires 0 <= i < |ns| => Sym(ns[i]))
  }

  /** Place `i` of the remainder `d` that follows on `c` and the value `v`. */
  ghost predicate PlaceOk(long: bool, c: seq<nat>, v: nat, d: seq<nat>, i: nat)
    requires i < Size(long) == |c| == |d|
  {
    Sym(d[i]) == Xor(Sym(if i + 1 < |c| then c[i + 1] else v), Times(Sym(c[0]), Coefficient(long, i)))
  }

  ghost predicate StepsTo(long: bool, c: seq<nat>, v: nat, d: seq<nat>) {
    |c| == |d| == Size(long) && forall i :: 0 <= i < Size(long) ==> PlaceOk(long, c, v, d, i)
  }

  lemma StepsToIs(long: bool, c: seq<nat>, v: nat, d: seq<nat>)
    requires StepsTo(long, c, v, d)
    ensures Remainder(long, Syms(c)) && Step(long, Syms(c), Sym(v)) == Syms(d)
  {
    hide Sym, Xor, Times, Step, Coefficient;
    forall i | 0 <= i < Size(long) ensures Step(long, Syms(c), Sym(v))[i] == Syms(d)[i] {
      StepDivides(long, Syms(c), Sym(v), i);
      assert PlaceOk(long, c, v, d, i);
    }
  }

  /** The first values only follow the one in front. */
  lemma {:induction false} PolyShifts(long: bool, vs: seq<Symbol>)
    requires |vs| < Size(long)
    ensures PolyMod(long, vs) == Zero(Size(long) - 1 - |vs|) + [UNIT] + vs
  {
    hide Step, Size, One;
    OneIs(long);
    if vs != [] {
      var n := |vs| - 1;
      PolyShifts(long, vs[..n]);
      var c := Zero(Size(long) - 1 - n) + [UNIT] + vs[..n];
      StepPlain(long, c, vs[n]);
      PolyModNext(long, vs, n);
      assert vs[..n + 1] == vs;
      assert c[1..] + [vs[n]] == Zero(Size(long) - 1 - |vs|) + [UNIT] + vs;
    }
  }

  /** Four more values after as many as there are places but one. */
  lemma FourSteps(long: bool, vs: seq<nat>, c: seq<nat>, c1: seq<nat>, c2: seq<nat>, c3: seq<nat>, c4: seq<nat>)
    requires |vs| == Size(long) + 3 && c == [1] + vs[..Size(long) - 1]
    requires StepsTo(long, c, vs[Size(long) - 1], c1) && StepsTo(long, c1, vs[Size(long)], c2)
    requires StepsTo(long, c2, vs[Size(long) + 1], c3) && StepsTo(long, c3, vs[Size(long) + 2], c4)
    ensures PolyMod(long, Syms(vs)) == Syms(c4)
  {
    SymOne();
    hide *;
    var n, ss := Size(long), Syms(vs);
    PolyShifts(long, ss[..n - 1]);
    assert Zero(0) + [UNIT] + ss[..n - 1] == Syms(c);
    StepsToIs(long, c, vs[n - 1], c1);
    StepsToIs(long, c1, vs[n], c2);
    StepsToIs(long, c2, vs[n + 1], c3);
    StepsToIs(long, c3, vs[n + 2], c4);
    PolyModNext(long, ss, n - 1);
    PolyModNext(long, ss, n);
    PolyModNext(long, ss, n + 1);
    PolyModNext(long, ss, n + 2);
    assert ss[..n + 3] == ss;
  }

  lemma PrefixA()
    ensures ExpandHrp("a") == Syms([3, 0, 1])
  {
    assert "a"[0] as nat == 97;
    assert Sym(0) == ZERO;
    hide Sym;
  }

  /** The text of an encoding with the prefix "a" and no values, from its checksum. */
  lemma TextOfA(long: bool, modified: bool, chk: seq<nat>)
    requires |chk| == Size(long) && PolyMod(long, Syms([3, 0, 1] + chk)) == Constant(long, modified)
    ensures Encoded(long, Result(modified, "a", [])) == "a1" + Text(Syms(chk))
  {
    hide *;
    PrefixA();
    var e := ExpandHrp("a");
    assert Syms([3, 0, 1] + chk) == e + Syms(chk);
    ChecksumIs(long, modified, e, Syms(chk));
    EncodedIs(long, Result(modified, "a", []));
    assert e + [] == e && [] + Syms(chk) == Syms(chk);
  }

  lemma Place(long: bool, c: seq<nat>, v: nat, d: seq<nat>, i: nat, p: nat)
    requires i < Size(long) == |c| == |d| && Times(Sym(c[0]), Sym(Coefficients(long)[i])) == Sym(p)
    requires Xor(Sym(if i + 1 < |c| then c[i + 1] else v), Sym(p)) == Sym(d[i])
    ensures PlaceOk(long, c, v, d, i)
  {
    hide Times, Sym, Xor;
  }

  lemma ShortTimes1()
    ensures Times(Sym(1), Sym(18)) == Sym(18)
    ensures Times(Sym(1), Sym(20)) == Sym(20)
    ensures Times(Sym(1), Sym(21)) == Sym(21)
    ensures Times(Sym(1), Sym(22)) == Sym(22)
    ensures Times(Sym(1), Sym(29)) == Sym(29)
  {
    Digits();
    hide Sym;
  }

  lemma ShortTimes18()
    ensures Times(Sym(18), Sym(18)) == Sym(30)
    ensures Times(Sym(18), Sym(20)) == Sym(9)
    ensures Times(Sym(18), Sym(21)) == Sym(27)
    ensures Times(Sym(18), Sym(22)) == Sym(4)
    ensures Times(Sym(18), Sym(29)) == Sym(6)
  {
    Digits();
    hide Sym;
  }

  lemma ShortTimes30()
    ensures Times(Sym(30), Sym(18)) == Sym(25)
    ensures Times(Sym(30), Sym(20)) == Sym(15)
    ensures Times(Sym(30), Sym(21)) == Sym(17)
    ensures Times(Sym(30), Sym(22)) == Sym(26)
    ensures Times(Sym(30), Sym(29)) == Sym(23)
  {
    Digits();
    hide Sym;
  }

  lemma Bech32Sums1()
    ensures Xor(Sym(0), Sym(22)) == Sym(22)
    ensures Xor(Sym(1), Sym(20)) == Sym(21)
    ensures Xor(Sym(3), Sym(29)) == Sym(30)
    ensures Xor(Sym(10), Sym(21)) == Sym(31)
    ensures Xor(Sym(25), Sym(18)) == Sym(11)
    ensures Xor(Sym(28), Sym(29)) == Sym(1)
  {
    Digits();
    hide Sym;
  }

  lemma Bech32Step1()
    ensures StepsTo(false, [1, 3, 0, 1, 10, 28], 25, [30, 22, 21, 31, 1, 11])
  {
    ShortTimes1();
    Bech32Sums1();
    hide Times, Sym, Xor, PlaceOk;
    var c: seq<nat>, d: seq<nat> := [1, 3, 0, 1, 10, 28], [30, 22, 21, 31, 1, 11];
    Place(false, c, 25, d, 0, 29);
    Place(false, c, 25, d, 1, 22);
    Place(false, c, 25, d, 2, 20);
    Place(false, c, 25, d, 3, 21);
    Place(false, c, 25, d, 4, 29);
    Place(false, c, 25, d, 5, 18);
  }

  lemma Bech32Sums2()
    ensures Xor(Sym(1), Sym(17)) == Sym(16)
    ensures Xor(Sym(11), Sym(23)) == Sym(28)
    ensures Xor(Sym(21), Sym(26)) == Sym(15)
    ensures Xor(Sym(22), Sym(23)) == Sym(1)
    ensures Xor(Sym(31), Sym(15)) == Sym(16)
    ensures Xor(Sym(31), Sym(25)) == Sym(6)
  {
    Digits();
    hide Sym;
  }

  lemma Bech32Step2()
    ensures StepsTo(false, [30, 22, 21, 31, 1, 11], 31, [1, 15, 16, 16, 28, 6])
  {
    ShortTimes30();
    Bech32Sums2();
    hide Times, Sym, Xor, PlaceOk;
    var c: seq<nat>, d: seq<nat> := [30, 22, 21, 31, 1, 11], [1, 15, 16, 16, 28, 6];
    Place(false, c, 31, d, 0, 23);
    Place(false, c, 31, d, 1, 26);
    Place(false, c, 31, d, 2, 15);
    Place(false, c, 31, d, 3, 17);
    Place(false, c, 31, d, 4, 23);
    Place(false, c, 31, d, 5, 25);
  }

  lemma Bech32Sums3()
    ensures Xor(Sym(6), Sym(29)) == Sym(27)
    ensures Xor(Sym(15), Sym(29)) == Sym(18)
    ensures Xor(Sym(16), Sym(20)) == Sym(4)
    ensures Xor(Sym(16), Sym(22)) == Sym(6)
    ensures Xor(Sym(20), Sym(18)) == Sym(6)
    ensures Xor(Sym(28), Sym(21)) == Sym(9)
  {
    Digits();
    hide Sym;
  }

  lemma Bech32Step3()
    ensures StepsTo(false, [1, 15, 16, 16, 28, 6], 20, [18, 6, 4, 9, 27, 6])
  {
    ShortTimes1();
    Bech32Sums3();
    hide Times, Sym, Xor, PlaceOk;
    var c: seq<nat>, d: seq<nat> := [1, 15, 16, 16, 28, 6], [18, 6, 4, 9, 27, 6];
    Place(false, c, 20, d, 0, 29);
    Place(false, c, 20, d, 1, 22);
    Place(false, c, 20, d, 2, 20);
    Place(false, c, 20, d, 3, 21);
    Place(false, c, 20, d, 4, 29);
    Place(false, c, 20, d, 5, 18);
  }

  lemma Bech32Sums4()
    ensures Xor(Sym(4), Sym(4)) == Sym(0)
    ensures Xor(Sym(6), Sym(6)) == Sym(0)
    ensures Xor(Sym(9), Sym(9)) == Sym(0)
    ensures Xor(Sym(27), Sym(27)) == Sym(0)
    ensures Xor(Sym(31), Sym(30)) == Sym(1)
  {
    Digits();
    hide Sym;
  }

  lemma Bech32Step4()
    ensures StepsTo(false, [18, 6, 4, 9, 27, 6], 31, [0, 0, 0, 0, 0, 1])
  {
    ShortTimes18();
    Bech32Sums4();
    hide Times, Sym, Xor, PlaceOk;
    var c: seq<nat>, d: seq<nat> := [18, 6, 4, 9, 27, 6], [0, 0, 0, 0, 0, 1];
    Place(false, c, 31, d, 0, 6);
    Place(false, c, 31, d, 1, 4);
    Place(false, c, 31, d, 2, 9);
    Place(false, c, 31, d, 3, 27);
    Place(false, c, 31, d, 4, 6);
    Place(false, c, 31, d, 5, 30);
  }

  lemma Bech32mSums1()
    ensures Xor(Sym(0), Sym(22)) == Sym(22)
    ensures Xor(Sym(0), Sym(29)) == Sym(29)
    ensures Xor(Sym(1), Sym(20)) == Sym(21)
    ensures Xor(Sym(3), Sym(29)) == Sym(30)
    ensures Xor(Sym(9), Sym(18)) == Sym(27)
    ensures Xor(Sym(31), Sym(21)) == Sym(10)
  {
    Digits();
    hide Sym;
  }

  lemma Bech32mStep1()
    ensures StepsTo(false, [1, 3, 0, 1, 31, 0], 9, [30, 22, 21, 10, 29, 27])
  {
    ShortTimes1();
    Bech32mSums1();
    hide Times, Sym, Xor, PlaceOk;
    var c: seq<nat>, d: seq<nat> := [1, 3, 0, 1, 31, 0], [30, 22, 21, 10, 29, 27];
    Place(false, c, 9, d, 0, 29);
    Place(false, c, 9, d, 1, 22);
    Place(false, c, 9, d, 2, 20);
    Place(false, c, 9, d, 3, 21);
    Place(false, c, 9, d, 4, 29);
    Place(false, c, 9, d, 5, 18);
  }

  lemma Bech32mSums2()
    ensures Xor(Sym(10), Sym(15)) == Sym(5)
    ensures Xor(Sym(19), Sym(25)) == Sym(10)
    ensures Xor(Sym(21), Sym(26)) == Sym(15)
    ensures Xor(Sym(22), Sym(23)) == Sym(1)
    ensures Xor(Sym(27), Sym(23)) == Sym(12)
    ensures Xor(Sym(29), Sym(17)) == Sym(12)
  {
    Digits();
    hide Sym;
  }

  lemma Bech32mStep2()
    ensures StepsTo(false, [30, 22, 21, 10, 29, 27], 19, [1, 15, 5, 12, 12, 10])
  {
    ShortTimes30();
    Bech32mSums2();
    hide Times, Sym, Xor, PlaceOk;
    var c: seq<nat>, d: seq<nat> := [30, 22, 21, 10, 29, 27], [1, 15, 5, 12, 12, 10];
    Place(false, c, 19, d, 0, 23);
    Place(false, c, 19, d, 1, 26);
    Place(false, c, 19, d, 2, 15);
    Place(false, c, 19, d, 3, 17);
    Place(false, c, 19, d, 4, 23);
    Place(false, c, 19, d, 5, 25);
  }

  lemma Bech32mSums3()
    ensures Xor(Sym(5), Sym(22)) == Sym(19)
    ensures Xor(Sym(10), Sym(29)) == Sym(23)
    ensures Xor(Sym(12), Sym(20)) == Sym(24)
    ensures Xor(Sym(12), Sym(21)) == Sym(25)
    ensures Xor(Sym(15), Sym(29)) == Sym(18)
    ensures Xor(Sym(17), Sym(18)) == Sym(3)
  {
    Digits();
    hide Sym;
  }

  lemma Bech32mStep3()
    ensures StepsTo(false, [1, 15, 5, 12, 12, 10], 17, [18, 19, 24, 25, 23, 3])
  {
    ShortTimes1();
    Bech32mSums3();
    hide Times, Sym, Xor, PlaceOk;
    var c: seq<nat>, d: seq<nat> := [1, 15, 5, 12, 12, 10], [18, 19, 24, 25, 23, 3];
    Place(false, c, 17, d, 0, 29);
    Place(false, c, 17, d, 1, 22);
    Place(false, c, 17, d, 2, 20);
    Place(false, c, 17, d, 3, 21);
    Place(false, c, 17, d, 4, 29);
    Place(false, c, 17, d, 5, 18);
  }

  lemma Bech32mSums4()
    ensures Xor(Sym(3), Sym(6)) == Sym(5)
    ensures Xor(Sym(19), Sym(6)) == Sym(21)
    ensures Xor(Sym(23), Sym(27)) == Sym(12)
    ensures Xor(Sym(24), Sym(4)) == Sym(28)
    ensures Xor(Sym(25), Sym(9)) == Sym(16)
    ensures Xor(Sym(29), Sym(30)) == Sym(3)
  {
    Digits();
    hide Sym;
  }

  lemma Bech32mStep4()
    ensures StepsTo(false, [18, 19, 24, 25, 23, 3], 29, [21, 28, 16, 12, 5, 3])
  {
    ShortTimes18();
    Bech32mSums4();
    hide Times, Sym, Xor, PlaceOk;
    var c: seq<nat>, d: seq<nat> := [18, 19, 24, 25, 23, 3], [21, 28, 16, 12, 5, 3];
    Place(false, c, 29, d, 0, 6);
    Place(false, c, 29, d, 1, 4);
    Place(false, c, 29, d, 2, 9);
    Place(false, c, 29, d, 3, 27);
    Place(false, c, 29, d, 4, 6);
    Place(false, c, 29, d, 5, 30);
  }

  /** The numbers are the groups of a packed number. */
  predicate Reads(word: nat, ns: seq<nat>, k: nat)
    requires k <= |ns|
  {
    k == 0 || (word % 32 == ns[k - 1] && Reads(word / 32, ns, k - 1))
  }

  lemma {:induction false} ReadsGroups(word: nat, ns: seq<nat>, k: nat, i: nat)
    requires i < k <= |ns| && Reads(word, ns, k)
    ensures Group(word, k - 1 - i) == Sym(ns[i])
    decreases k
  {
    hide Group, Sym;
    GroupLow(word, if i + 1 < k then k - 2 - i else 0);
    if i + 1 < k {
      ReadsGroups(word / 32, ns, k - 1, i);
    }
  }

  lemma ShortConstant()
    ensures Reads(0x2bc830a3, [21, 28, 16, 12, 5, 3], 6)
  {
    var ns: seq<nat> := [21, 28, 16, 12, 5, 3];
    assert Reads(0x15, ns, 1);
    assert Reads(0x2bc, ns, 2);
    assert Reads(0x5790, ns, 3);
    assert Reads(0xaf20c, ns, 4);
    assert Reads(0x15e4185, ns, 5);
  }

  lemma LongConstant()
    ensures Reads(0x455972a3350f7a1, [8, 21, 12, 23, 5, 8, 25, 21, 1, 29, 29, 1], 12)
  {
    var ns: seq<nat> := [8, 21, 12, 23, 5, 8, 25, 21, 1, 29, 29, 1];
    assert Reads(0x8, ns, 1);
    assert Reads(0x115, ns, 2);
    assert Reads(0x22ac, ns, 3);
    assert Reads(0x45597, ns, 4);
    assert Reads(0x8ab2e5, ns, 5);
    assert Reads(0x11565ca8, ns, 6);
    assert Reads(0x22acb9519, ns, 7);
    assert Reads(0x455972a335, ns, 8);
    assert Reads(0x8ab2e5466a1, ns, 9);
    assert Reads(0x11565ca8cd43d, ns, 10);
    assert Reads(0x22acb9519a87bd, ns, 11);
  }

  /** The remainders of the modified encodings, as the values they stand for. */
  lemma ModifiedConstants()
    ensures Constant(false, true) == Syms([21, 28, 16, 12, 5, 3])
    ensures Constant(true, true) == Syms([8, 21, 12, 23, 5, 8, 25, 21, 1, 29, 29, 1])
  {
    hide Sym, Group;
    ShortConstant();
    LongConstant();
    forall i | 0 <= i < 6 ensures Constant(false, true)[i] == Syms([21, 28, 16, 12, 5, 3])[i] {
      ReadsGroups(0x2bc830a3, [21, 28, 16, 12, 5, 3], 6, i);
    }
    forall i | 0 <= i < 12 ensures Constant(true, true)[i] == Syms([8, 21, 12, 23, 5, 8, 25, 21, 1, 29, 29, 1])[i] {
      ReadsGroups(0x455972a3350f7a1, [8, 21, 12, 23, 5, 8, 25, 21, 1, 29, 29, 1], 12, i);
    }
  }

  lemma Bech32Remainder()
    ensures PolyMod(false, Syms([3, 0, 1, 10, 28, 25, 31, 20, 31])) == Syms([0, 0, 0, 0, 0, 1])
  {
    Bech32Step1();
    Bech32Step2();
    Bech32Step3();
    Bech32Step4();
    SizeShort();
    hide *;
    FourSteps(false, [3, 0, 1, 10, 28, 25, 31, 20, 31], [1, 3, 0, 1, 10, 28], [30, 22, 21, 31, 1, 11],
              [1, 15, 16, 16, 28, 6], [18, 6, 4, 9, 27, 6], [0, 0, 0, 0, 0, 1]);
  }

  lemma Bech32mRemainder()
    ensures PolyMod(false, Syms([3, 0, 1, 31, 0, 9, 19, 17, 29])) == Syms([21, 28, 16, 12, 5, 3])
  {
    Bech32mStep1();
    Bech32mStep2();
    Bech32mStep3();
    Bech32mStep4();
    SizeShort();
    hide *;
    FourSteps(false, [3, 0, 1, 31, 0, 9, 19, 17, 29], [1, 3, 0, 1, 31, 0], [30, 22, 21, 10, 29, 27],
              [1, 15, 5, 12, 12, 10], [18, 19, 24, 25, 23, 3], [21, 28, 16, 12, 5, 3]);
  }

  lemma CharOf(n: nat)
    requires n < 32
    ensures Write(Sym(n)) == CharAt(n)
  {
    NumberOfSym(n);
    hide Sym;
  }

  ghost predicate Spells(ns: seq<nat>, t: string) {
    |ns| == |t| && forall i :: 0 <= i < |ns| ==> ns[i] < 32 && CharAt(ns[i]) == t[i]
  }

  lemma TextIs(ns: seq<nat>, t: string)
    requires Spells(ns, t)
    ensures Text(Syms(ns)) == t
  {
    hide Sym, Write, CharAt;
    forall i | 0 <= i < |ns| ensures Text(Syms(ns))[i] == t[i] {
      CharOf(ns[i]);
    }
  }

  lemma KnownTexts()
    ensures Text(Syms([10, 28, 25, 31, 20, 31])) == "2uel5l" && Text(Syms([31, 0, 9, 19, 17, 29])) == "lqfn3a"
  {
    hide Sym, Text, Write;
    assert Spells([10, 28, 25, 31, 20, 31], "2uel5l");
    assert Spells([31, 0, 9, 19, 17, 29], "lqfn3a");
    TextIs([10, 28, 25, 31, 20, 31], "2uel5l");
    TextIs([31, 0, 9, 19, 17, 29], "lqfn3a");
  }

  /** The shortest strings that BIP 173 and BIP 350 list as valid. */
  lemma KnownStrings()
    ensures Encoded(false, Result(false, "a", [])) == "a12uel5l"
    ensures Encoded(false, Result(true, "a", [])) == "a1lqfn3a"
  {
    hide *;
    KnownTexts();
    Bech32Remainder();
    Bech32mRemainder();
    ModifiedConstants();
    FirstConstant();
    JoinThree([10, 28, 25, 31, 20, 31]);
    JoinThree([31, 0, 9, 19, 17, 29]);
    TextOfA(false, false, [10, 28, 25, 31, 20, 31]);
    TextOfA(false, true, [31, 0, 9, 19, 17, 29]);
  }

  lemma SizeShort()
    ensures Size(false) == 6
  {
  }

  lemma JoinThree(chk: seq<nat>)
    requires |chk| == 6
    ensures [3, 0, 1] + chk == [3, 0, 1, chk[0], chk[1], chk[2], chk[3], chk[4], chk[5]] && |chk| == Size(false)
  {
  }

  lemma FirstConstant()
    ensures Constant(false, false) == Syms([0, 0, 0, 0, 0, 1])
  {
    OneIs(false);
    SymOne();
    Digit0();
    hide Sym, Group;
  }
}
