/**
 Bech32 and Bech32m (src/bech32.cpp) and their longer variants blech32 and blech32m
 (src/blech32.cpp).

 The two families differ in the number of checksum symbols, six or twelve, the generator
 polynomial, the final constants and the length limit; `long` selects the second.  The
 remainder is packed into one integer; what it means is the sequence of its 5-bit groups,
 highest first.
 */
module Bech32 {
  import opened Power

  // ----- Symbols -----

  /** Five bits, highest first. */
  datatype Symbol = Symbol(b16: bool, b8: bool, b4: bool, b2: bool, b1: bool)

  const ZERO := Symbol(false, false, false, false, false)

  function Sym(n: nat): Symbol {
    Symbol(n / 16 % 2 == 1, n / 8 % 2 == 1, n / 4 % 2 == 1, n / 2 % 2 == 1, n % 2 == 1)
  }

  function Xor(a: Symbol, b: Symbol): Symbol {
    Symbol(a.b16 != b.b16, a.b8 != b.b8, a.b4 != b.b4, a.b2 != b.b2, a.b1 != b.b1)
  }

  function Gate(on: bool, g: Symbol): Symbol {
    if on then g else ZERO
  }

  lemma XorLaws(a: Symbol, b: Symbol)
    ensures Xor(a, a) == ZERO && Xor(a, ZERO) == a && Xor(ZERO, a) == a && Xor(a, b) == Xor(b, a)
    ensures Xor(Xor(a, b), b) == a && (Xor(a, b) == ZERO <==> a == b)
  {
  }

  /** Sums of pairs can be regrouped. */
  lemma XorSwap(a: Symbol, b: Symbol, c: Symbol, d: Symbol)
    ensures Xor(Xor(a, b), Xor(c, d)) == Xor(Xor(a, c), Xor(b, d))
  {
  }

  lemma GateLinear(a: bool, b: bool, g: Symbol)
    ensures Gate(a != b, g) == Xor(Gate(a, g), Gate(b, g))
  {
  }

  /** The five bits of a symbol choose among five others, which are added up. */
  datatype Column = Column(g1: Symbol, g2: Symbol, g4: Symbol, g8: Symbol, g16: Symbol)

  function Choose(x: Symbol, g: Column): Symbol {
    Xor(Xor(Xor(Gate(x.b1, g.g1), Gate(x.b2, g.g2)), Xor(Gate(x.b4, g.g4), Gate(x.b8, g.g8))), Gate(x.b16, g.g16))
  }

  lemma XorBits(x: Symbol, y: Symbol)
    ensures var z := Xor(x, y);
            && z.b1 == (x.b1 != y.b1) && z.b2 == (x.b2 != y.b2) && z.b4 == (x.b4 != y.b4)
            && z.b8 == (x.b8 != y.b8) && z.b16 == (x.b16 != y.b16)
  {
  }

  lemma ChooseIs(x: Symbol, g: Column)
    ensures Choose(x, g) ==
            Xor(Xor(Xor(Gate(x.b1, g.g1), Gate(x.b2, g.g2)), Xor(Gate(x.b4, g.g4), Gate(x.b8, g.g8))), Gate(x.b16, g.g16))
  {
  }

  lemma ChooseLinear(x: Symbol, y: Symbol, g: Column)
    ensures Choose(Xor(x, y), g) == Xor(Choose(x, g), Choose(y, g))
  {
    hide *;
    XorBits(x, y);
    ChooseIs(x, g);
    ChooseIs(y, g);
    ChooseIs(Xor(x, y), g);
    GateLinear(x.b1, y.b1, g.g1);
    GateLinear(x.b2, y.b2, g.g2);
    GateLinear(x.b4, y.b4, g.g4);
    GateLinear(x.b8, y.b8, g.g8);
    GateLinear(x.b16, y.b16, g.g16);
    var a1, a2, a4, a8 := Gate(x.b1, g.g1), Gate(x.b2, g.g2), Gate(x.b4, g.g4), Gate(x.b8, g.g8);
    var b1, b2, b4, b8 := Gate(y.b1, g.g1), Gate(y.b2, g.g2), Gate(y.b4, g.g4), Gate(y.b8, g.g8);
    XorSwap(a1, b1, a2, b2);
    XorSwap(a4, b4, a8, b8);
    XorSwap(Xor(a1, a2), Xor(b1, b2), Xor(a4, a8), Xor(b4, b8));
    XorSwap(Xor(Xor(a1, a2), Xor(a4, a8)), Xor(Xor(b1, b2), Xor(b4, b8)), Gate(x.b16, g.g16), Gate(y.b16, g.g16));
  }

  // ----- The two generators -----

  /** The number of checksum symbols. */
  function Size(long: bool): (n: nat)
    ensures n > 0
  {
    if long then 12 else 6
  }

  /** The 5-bit group of a packed number that has `k` groups after it. */
  function Group(word: nat, k: nat): Symbol {
    Sym(word / Pow(32, k) % 32)
  }

  /** All groups of a packed remainder, highest first. */
  function Groups(long: bool, word: nat): (s: seq<Symbol>)
    ensures |s| == Size(long)
  {
    seq(Size(long), i requires 0 <= i < Size(long) => Group(word, Size(long) - 1 - i))
  }

  function Columns(a: nat, b: nat, c: nat, d: nat, e: nat, k: nat): Column {
    Column(Group(a, k), Group(b, k), Group(c, k), Group(d, k), Group(e, k))
  }

  /** The generator, without its leading term, times 1, 2, 4, 8 and 16, packed. */
  datatype Words = Words(w1: nat, w2: nat, w4: nat, w8: nat, w16: nat)

  function Multiples(long: bool): Words {
    if long then Words(0x7d52fba40bd886, 0x5e8dbf1a03950c, 0x1c3a3c74072a18, 0x385d72fa0e5139, 0x7093e5a608865b)
    else Words(0x3b6a57b2, 0x26508e6d, 0x1ea119fa, 0x3d4233dd, 0x2a1462b3)
  }

  /** Group `i` of these. */
  function Generator(long: bool, i: nat): Column
    requires i < Size(long)
  {
    var w := Multiples(long);
    Columns(w.w1, w.w2, w.w4, w.w8, w.w16, Size(long) - 1 - i)
  }

  /** The last group of the generator is a unit: only zero times it is zero. */
  lemma GeneratorUnit(long: bool, x: Symbol)
    ensures Choose(x, Generator(long, Size(long) - 1)) == ZERO ==> x == ZERO
  {
    LastGroups();
    LastUnit(x);
    hide Choose, Columns;
  }

  lemma LastGroups()
    ensures Columns(0x7d52fba40bd886, 0x5e8dbf1a03950c, 0x1c3a3c74072a18, 0x385d72fa0e5139, 0x7093e5a608865b, 0)
         == Column(Sym(6), Sym(12), Sym(24), Sym(25), Sym(27))
    ensures Columns(0x3b6a57b2, 0x26508e6d, 0x1ea119fa, 0x3d4233dd, 0x2a1462b3, 0)
         == Column(Sym(18), Sym(13), Sym(26), Sym(29), Sym(19))
  {
    hide Sym, Group;
    LastGroup(0x7d52fba40bd886);
    LastGroup(0x5e8dbf1a03950c);
    LastGroup(0x1c3a3c74072a18);
    LastGroup(0x385d72fa0e5139);
    LastGroup(0x7093e5a608865b);
    LastGroup(0x3b6a57b2);
    LastGroup(0x26508e6d);
    LastGroup(0x1ea119fa);
    LastGroup(0x3d4233dd);
    LastGroup(0x2a1462b3);
  }

  lemma LastGroup(word: nat)
    ensures Group(word, 0) == Sym(word % 32)
  {
    assert Pow(32, 0) == 1;
    hide Sym;
  }

  lemma LastUnit(x: Symbol)
    ensures Choose(x, Column(Sym(6), Sym(12), Sym(24), Sym(25), Sym(27))) == ZERO ==> x == ZERO
    ensures Choose(x, Column(Sym(18), Sym(13), Sym(26), Sym(29), Sym(19))) == ZERO ==> x == ZERO
  {
    assert Sym(6) == Symbol(false, false, true, true, false);
    assert Sym(12) == Symbol(false, true, true, false, false);
    assert Sym(24) == Symbol(true, true, false, false, false);
    assert Sym(25) == Symbol(true, true, false, false, true);
    assert Sym(27) == Symbol(true, true, false, true, true);
    assert Sym(18) == Symbol(true, false, false, true, false);
    assert Sym(13) == Symbol(false, true, true, false, true);
    assert Sym(26) == Symbol(true, true, false, true, false);
    assert Sym(29) == Symbol(true, true, true, false, true);
    assert Sym(19) == Symbol(true, false, false, true, true);
    hide Sym;
  }

  // ----- The remainder -----

  ghost predicate Remainder(long: bool, c: seq<Symbol>) {
    |c| == Size(long)
  }

  function Zero(n: nat): (s: seq<Symbol>)
    ensures |s| == n && forall i :: 0 <= i < n ==> s[i] == ZERO
  {
    seq(n, _ => ZERO)
  }

  function XorAll(a: seq<Symbol>, b: seq<Symbol>): (s: seq<Symbol>)
    requires |a| == |b|
    ensures |s| == |a| && forall i :: 0 <= i < |a| ==> s[i] == Xor(a[i], b[i])
  {
    seq(|a|, i requires 0 <= i < |a| => Xor(a[i], b[i]))
  }

  /** Multiply the remainder by x and add `v`, modulo the generator. */
  function Step(long: bool, c: seq<Symbol>, v: Symbol): (r: seq<Symbol>)
    requires Remainder(long, c)
    ensures Remainder(long, r)
  {
    seq(Size(long), i requires 0 <= i < Size(long) =>
      Xor(if i + 1 < Size(long) then c[i + 1] else v, Choose(c[0], Generator(long, i))))
  }

  lemma StepAt(long: bool, c: seq<Symbol>, v: Symbol, i: nat)
    requires Remainder(long, c) && i < Size(long)
    ensures Step(long, c, v)[i] == Xor(if i + 1 < Size(long) then c[i + 1] else v, Choose(c[0], Generator(long, i)))
  {
  }

  /** The remainder after a list of values, starting from `c`. */
  function Poly(long: bool, c: seq<Symbol>, vs: seq<Symbol>): (r: seq<Symbol>)
    requires Remainder(long, c)
    ensures Remainder(long, r)
  {
    if vs == [] then c else Step(long, Poly(long, c, vs[..|vs| - 1]), vs[|vs| - 1])
  }

  lemma StepLinear(long: bool, c: seq<Symbol>, d: seq<Symbol>, v: Symbol, w: Symbol)
    requires Remainder(long, c) && Remainder(long, d)
    ensures Step(long, XorAll(c, d), Xor(v, w)) == XorAll(Step(long, c, v), Step(long, d, w))
  {
    hide Xor, Choose, Generator, Step;
    var r, s := Step(long, XorAll(c, d), Xor(v, w)), XorAll(Step(long, c, v), Step(long, d, w));
    forall i | 0 <= i < Size(long) ensures r[i] == s[i] {
      StepAt(long, XorAll(c, d), Xor(v, w), i);
      StepAt(long, c, v, i);
      StepAt(long, d, w, i);
      ChooseLinear(c[0], d[0], Generator(long, i));
      var x, y := if i + 1 < Size(long) then c[i + 1] else v, if i + 1 < Size(long) then d[i + 1] else w;
      XorSwap(x, y, Choose(c[0], Generator(long, i)), Choose(d[0], Generator(long, i)));
    }
  }

  lemma {:induction false} PolyLinear(long: bool, c: seq<Symbol>, d: seq<Symbol>, v: seq<Symbol>, w: seq<Symbol>)
    requires Remainder(long, c) && Remainder(long, d) && |v| == |w|
    ensures Poly(long, XorAll(c, d), XorAll(v, w)) == XorAll(Poly(long, c, v), Poly(long, d, w))
  {
    if v != [] {
      var n := |v| - 1;
      PolyLinear(long, c, d, v[..n], w[..n]);
      assert XorAll(v, w)[..n] == XorAll(v[..n], w[..n]);
      hide Step, Xor;
      StepLinear(long, Poly(long, c, v[..n]), Poly(long, d, w[..n]), v[n], w[n]);
    }
  }

  lemma {:induction false} PolyJoin(long: bool, c: seq<Symbol>, v: seq<Symbol>, w: seq<Symbol>)
    requires Remainder(long, c)
    ensures Poly(long, c, v + w) == Poly(long, Poly(long, c, v), w)
  {
    hide Step;
    if w == [] {
      assert v + w == v;
    } else {
      var n := |w| - 1;
      assert (v + w)[..|v| + n] == v + w[..n];
      PolyJoin(long, c, v, w[..n]);
    }
  }

  lemma ChooseNothing(g: Column)
    ensures Choose(ZERO, g) == ZERO
  {
  }

  /** A remainder without leading coefficient is only moved up. */
  lemma StepPlain(long: bool, c: seq<Symbol>, v: Symbol)
    requires Remainder(long, c) && c[0] == ZERO
    ensures Step(long, c, v) == c[1..] + [v]
  {
    hide Xor, Choose, Generator, Step;
    forall i | 0 <= i < Size(long) ensures Step(long, c, v)[i] == (c[1..] + [v])[i] {
      StepAt(long, c, v, i);
      ChooseNothing(Generator(long, i));
      XorLaws((c[1..] + [v])[i], ZERO);
    }
  }

  /** As long as there are no more values than places, they are just stored. */
  lemma {:induction false} PolyStores(long: bool, e: seq<Symbol>)
    requires |e| <= Size(long)
    ensures Poly(long, Zero(Size(long)), e) == Zero(Size(long) - |e|) + e
  {
    hide Step, Zero, Size;
    if e == [] {
      assert Zero(Size(long)) + e == Zero(Size(long));
    } else {
      var n := |e| - 1;
      var c := Zero(Size(long) - n) + e[..n];
      PolyStores(long, e[..n]);
      StepPlain(long, c, e[n]);
      assert c[1..] + [e[n]] == Zero(Size(long) - |e|) + e;
    }
  }

  /** No remainder but zero is stepped to zero. */
  lemma StepInjective(long: bool, c: seq<Symbol>)
    requires Remainder(long, c) && Step(long, c, ZERO) == Zero(Size(long))
    ensures c == Zero(Size(long))
  {
    hide Xor, Choose, Generator, Step;
    var n := Size(long) - 1;
    StepAt(long, c, ZERO, n);
    XorLaws(Choose(c[0], Generator(long, n)), ZERO);
    GeneratorUnit(long, c[0]);
    StepPlain(long, c, ZERO);
    forall i | 0 <= i < Size(long) ensures c[i] == ZERO {
      if i > 0 {
        assert (c[1..] + [ZERO])[i - 1] == c[i];
      }
    }
  }

  lemma {:induction false} PolyInjective(long: bool, c: seq<Symbol>, n: nat)
    requires Remainder(long, c) && Poly(long, c, Zero(n)) == Zero(Size(long))
    ensures c == Zero(Size(long))
  {
    if n > 0 {
      assert Zero(n)[..n - 1] == Zero(n - 1);
      hide Step;
      StepInjective(long, Poly(long, c, Zero(n - 1)));
      PolyInjective(long, c, n - 1);
    }
  }

  lemma {:induction false} PolyZeros(long: bool, n: nat)
    ensures Poly(long, Zero(Size(long)), Zero(n)) == Zero(Size(long))
  {
    hide Step, Size;
    if n > 0 {
      assert Zero(n)[..n - 1] == Zero(n - 1);
      PolyZeros(long, n - 1);
      StepPlain(long, Zero(Size(long)), ZERO);
      assert Zero(Size(long))[1..] + [ZERO] == Zero(Size(long));
    }
  }

  // ----- Error detection -----

  /** Two lists that agree outside a window of as many places as there are checksum symbols. */
  ghost predicate DifferInWindow(long: bool, v: seq<Symbol>, w: seq<Symbol>, p: nat) {
    |v| == |w| && forall i :: 0 <= i < |v| && !(p <= i < p + Size(long)) ==> v[i] == w[i]
  }

  /** A burst of errors inside such a window always changes the remainder. */
  lemma BurstDetected(long: bool, c: seq<Symbol>, v: seq<Symbol>, w: seq<Symbol>, p: nat)
    requires Remainder(long, c) && DifferInWindow(long, v, w, p) && p <= |v| && v != w
    ensures Poly(long, c, v) != Poly(long, c, w)
  {
    hide *;
    var n := Size(long);
    var end := if p + n <= |v| then p + n else |v|;
    WindowSplits(long, v, w, p, end);
    var d := XorAll(v, w);
    XorSame(c);
    SizeOf(long, c);
    PolyLinear(long, c, c, v, w);
    if Poly(long, c, v) == Poly(long, c, w) {
      XorSame(Poly(long, c, v));
      SizeOf(long, Poly(long, c, v));
      BurstRemains(long, p, d[p..end], |v| - end);
      assert d == Zero(|v|);
      XorDifference(v, w);
      assert false;
    }
  }

  /** A difference that fits into the checksum does not vanish, whatever zeros surround it. */
  lemma BurstRemains(long: bool, p: nat, e: seq<Symbol>, t: nat)
    requires |e| <= Size(long) && Remainder(long, Zero(Size(long)))
    requires Poly(long, Zero(Size(long)), Zero(p) + e + Zero(t)) == Zero(Size(long))
    ensures forall i :: 0 <= i < |e| ==> e[i] == ZERO
  {
    hide *;
    var n := Size(long);
    PolyJoin(long, Zero(n), Zero(p) + e, Zero(t));
    PolyJoin(long, Zero(n), Zero(p), e);
    PolyZeros(long, p);
    PolyStores(long, e);
    PolyInjective(long, Poly(long, Zero(n), e), t);
    StoredZero(n - |e|, e, n);
  }

  lemma SizeOf(long: bool, c: seq<Symbol>)
    requires Remainder(long, c)
    ensures |c| == Size(long)
    ensures Remainder(long, Zero(Size(long)))
  {
  }

  lemma WindowSplits(long: bool, v: seq<Symbol>, w: seq<Symbol>, p: nat, end: nat)
    requires DifferInWindow(long, v, w, p) && p <= end <= |v| && (end == |v| || end == p + Size(long)) && end <= p + Size(long)
    ensures |v| == |w|
    ensures var d := XorAll(v, w); d == Zero(p) + d[p..end] + Zero(|v| - end)
  {
    var d := XorAll(v, w);
    forall i | 0 <= i < |v| && !(p <= i < end) ensures d[i] == ZERO {
      XorLaws(v[i], w[i]);
    }
  }

  lemma StoredZero(k: nat, e: seq<Symbol>, n: nat)
    requires Zero(k) + e == Zero(n)
    ensures forall i :: 0 <= i < |e| ==> e[i] == ZERO
  {
    assert forall i :: 0 <= i < |e| ==> e[i] == (Zero(k) + e)[k + i];
  }

  lemma XorSame(c: seq<Symbol>)
    ensures XorAll(c, c) == Zero(|c|)
  {
    forall i | 0 <= i < |c| ensures XorAll(c, c)[i] == ZERO {
      XorLaws(c[i], c[i]);
    }
  }

  lemma XorDifference(v: seq<Symbol>, w: seq<Symbol>)
    requires |v| == |w|
    ensures XorAll(v, w) == Zero(|v|) <==> v == w
  {
    forall i | 0 <= i < |v| ensures XorAll(v, w)[i] == ZERO <==> v[i] == w[i] {
      XorLaws(v[i], w[i]);
    }
    if v != w {
      var i :| 0 <= i < |v| && v[i] != w[i];
      assert XorAll(v, w)[i] != ZERO;
    }
  }

  // ----- The checksum -----

  /** What the remainder of a valid string must be, for the first and for the modified encoding. */
  function Constant(long: bool, modified: bool): (s: seq<Symbol>)
    ensures Remainder(long, s)
  {
    Groups(long, EncodingConstant(long, modified))
  }

  function EncodingConstant(long: bool, modified: bool): nat {
    if !modified then 1 else if long then 0x455972a3350f7a1 else 0x2bc830a3
  }

  /** The starting remainder. */
  function One(long: bool): (s: seq<Symbol>)
    ensures Remainder(long, s)
  {
    Groups(long, 1)
  }

  lemma ConstantsDiffer(long: bool)
    ensures Constant(long, false) != Constant(long, true)
  {
    hide Sym;
    var a, b := Constant(long, false), Constant(long, true);
    if long {
      assert a[10] == Group(1, 1) && b[10] == Group(0x455972a3350f7a1, 1);
      assert Pow(32, 1) == 32;
      assert Group(1, 1) == Sym(0) && Group(0x455972a3350f7a1, 1) == Sym(29);
    } else {
      assert a[5] == Group(1, 0) && b[5] == Group(0x2bc830a3, 0);
      LastGroup(1);
      LastGroup(0x2bc830a3);
    }
    SymDistinct();
  }

  lemma SymDistinct()
    ensures Sym(0) != Sym(29) && Sym(1) != Sym(3)
  {
  }

  function PolyMod(long: bool, vs: seq<Symbol>): (r: seq<Symbol>)
    ensures Remainder(long, r)
  {
    Poly(long, One(long), vs)
  }

  /** The high bits of the characters, a separator, and their low bits. */
  function ExpandHrp(hrp: string): seq<Symbol> {
    seq(|hrp|, i requires 0 <= i < |hrp| => Sym(hrp[i] as nat / 32)) + [ZERO]
    + seq(|hrp|, i requires 0 <= i < |hrp| => Sym(hrp[i] as nat % 32))
  }

  /** What must be appended to make the remainder the constant. */
  function Checksum(long: bool, modified: bool, enc: seq<Symbol>): (s: seq<Symbol>)
    ensures |s| == Size(long)
  {
    XorAll(PolyMod(long, enc + Zero(Size(long))), Constant(long, modified))
  }

  lemma XorAllLaws(a: seq<Symbol>, b: seq<Symbol>)
    requires |a| == |b|
    ensures XorAll(a, Zero(|a|)) == a && XorAll(Zero(|a|), a) == a && XorAll(a, XorAll(a, b)) == b
  {
    forall i | 0 <= i < |a|
      ensures XorAll(a, Zero(|a|))[i] == a[i] && XorAll(Zero(|a|), a)[i] == a[i] && XorAll(a, XorAll(a, b))[i] == b[i]
    {
      XorLaws(a[i], b[i]);
      XorLaws(b[i], a[i]);
    }
  }

  /** The remainder of values followed by a checksum. */
  lemma RemainderOf(long: bool, enc: seq<Symbol>, chk: seq<Symbol>)
    requires |chk| == Size(long)
    ensures PolyMod(long, enc + chk) == XorAll(PolyMod(long, enc + Zero(Size(long))), chk)
  {
    var n, s := Size(long), Poly(long, One(long), enc);
    hide *;
    PolyModIs(long, enc + chk);
    PolyModIs(long, enc + Zero(n));
    PolyJoin(long, One(long), enc, chk);
    PolyJoin(long, One(long), enc, Zero(n));
    SizeOf(long, s);
    XorAllLaws(s, s);
    XorAllLaws(chk, chk);
    PolyLinear(long, s, Zero(n), Zero(n), chk);
    PolyStores(long, chk);
    assert Zero(0) + chk == chk;
  }

  lemma PolyModIs(long: bool, vs: seq<Symbol>)
    ensures Remainder(long, One(long)) && PolyMod(long, vs) == Poly(long, One(long), vs)
  {
  }

  /** The checksum is the one and only that makes the values verify. */
  lemma ChecksumIs(long: bool, modified: bool, enc: seq<Symbol>, chk: seq<Symbol>)
    requires |chk| == Size(long)
    ensures PolyMod(long, enc + chk) == Constant(long, modified) <==> chk == Checksum(long, modified, enc)
  {
    RemainderOf(long, enc, chk);
    var m := PolyMod(long, enc + Zero(Size(long)));
    XorAllLaws(m, chk);
    XorAllLaws(m, Constant(long, modified));
    hide PolyMod, Xor, Constant;
  }

  datatype Option<T> = None | Some(value: T)

  /** Which encoding the values verify as, if any. */
  function VerifyChecksum(long: bool, hrp: string, values: seq<Symbol>): Option<bool> {
    var check := PolyMod(long, ExpandHrp(hrp) + values);
    if check == Constant(long, false) then Some(false)
    else if check == Constant(long, true) then Some(true)
    else None
  }

  /** Changing only a window of values never gives a string of the same encoding. */
  lemma BurstNeverVerifies(long: bool, hrp: string, v: seq<Symbol>, w: seq<Symbol>, p: nat)
    requires DifferInWindow(long, v, w, p) && p <= |v| && v != w && VerifyChecksum(long, hrp, v).Some?
    ensures VerifyChecksum(long, hrp, w) != VerifyChecksum(long, hrp, v)
  {
    hide Poly, PolyMod, ExpandHrp, Constant, One, DifferInWindow, Remainder;
    var x := ExpandHrp(hrp);
    PolyModIs(long, x + v);
    PolyModIs(long, x + w);
    PolyJoin(long, One(long), x, v);
    PolyJoin(long, One(long), x, w);
    BurstDetected(long, Poly(long, One(long), x), v, w, p);
  }

  // ----- Characters -----

  /** The character set. */
  function CharAt(n: nat): char
    requires n < 32
  {
    if n == 0 then 'q' else if n == 1 then 'p' else if n == 2 then 'z' else if n == 3 then 'r'
    else if n == 4 then 'y' else if n == 5 then '9' else if n == 6 then 'x' else if n == 7 then '8'
    else if n == 8 then 'g' else if n == 9 then 'f' else if n == 10 then '2' else if n == 11 then 't'
    else if n == 12 then 'v' else if n == 13 then 'd' else if n == 14 then 'w' else if n == 15 then '0'
    else if n == 16 then 's' else if n == 17 then '3' else if n == 18 then 'j' else if n == 19 then 'n'
    else if n == 20 then '5' else if n == 21 then '4' else if n == 22 then 'k' else if n == 23 then 'h'
    else if n == 24 then 'c' else if n == 25 then 'e' else if n == 26 then '6' else if n == 27 then 'm'
    else if n == 28 then 'u' else if n == 29 then 'a' else if n == 30 then '7' else 'l'
  }

  /** The place of a lower-case character in the set. */
  function PlaceOf(c: char): Option<nat> {
    if c == 'q' then Some(0) else if c == 'p' then Some(1) else if c == 'z' then Some(2) else if c == 'r' then Some(3)
    else if c == 'y' then Some(4) else if c == '9' then Some(5) else if c == 'x' then Some(6) else if c == '8' then Some(7)
    else if c == 'g' then Some(8) else if c == 'f' then Some(9) else if c == '2' then Some(10) else if c == 't' then Some(11)
    else if c == 'v' then Some(12) else if c == 'd' then Some(13) else if c == 'w' then Some(14) else if c == '0' then Some(15)
    else if c == 's' then Some(16) else if c == '3' then Some(17) else if c == 'j' then Some(18) else if c == 'n' then Some(19)
    else if c == '5' then Some(20) else if c == '4' then Some(21) else if c == 'k' then Some(22) else if c == 'h' then Some(23)
    else if c == 'c' then Some(24) else if c == 'e' then Some(25) else if c == '6' then Some(26) else if c == 'm' then Some(27)
    else if c == 'u' then Some(28) else if c == 'a' then Some(29) else if c == '7' then Some(30) else if c == 'l' then Some(31)
    else None
  }

  lemma PlaceIsInverse(n: nat, c: char)
    requires n < 32
    ensures PlaceOf(CharAt(n)) == Some(n) && (PlaceOf(c).Some? ==> PlaceOf(c).value < 32 && CharAt(PlaceOf(c).value) == c)
  {
  }

  const CHARSET := "qpzry9x8gf2tvdw0s3jn54khce6mua7l"

  lemma CharsetIs(n: nat)
    requires n < 32
    ensures |CHARSET| == 32 && CharAt(n) == CHARSET[n]
  {
  }

  lemma CharIsPlain(n: nat)
    requires n < 32
    ensures var c := CharAt(n); c != '1' && 33 <= c as int <= 126 && !('A' <= c <= 'Z')
  {
  }

  function Number(s: Symbol): (n: nat)
    ensures n < 32
  {
    (if s.b16 then 16 else 0) + (if s.b8 then 8 else 0) + (if s.b4 then 4 else 0) + (if s.b2 then 2 else 0) + (if s.b1 then 1 else 0)
  }

  lemma SymOfNumber(s: Symbol)
    ensures Sym(Number(s)) == s
  {
  }

  lemma NumberOfSym(n: nat)
    requires n < 32
    ensures Number(Sym(n)) == n
  {
  }

  predicate Upper(c: char) {
    'A' <= c <= 'Z'
  }

  predicate Lower(c: char) {
    'a' <= c <= 'z'
  }

  predicate Printable(c: char) {
    33 <= c as int <= 126
  }

  function LowerCase(c: char): char {
    if Upper(c) then (c as int + 32) as char else c
  }

  function LowerAll(s: string): (t: string)
    ensures |t| == |s| && forall i :: 0 <= i < |s| ==> t[i] == LowerCase(s[i])
  {
    seq(|s|, i requires 0 <= i < |s| => LowerCase(s[i]))
  }

  function Write(s: Symbol): char {
    CharAt(Number(s))
  }

  function Read(c: char): Option<Symbol> {
    match PlaceOf(LowerCase(c))
    case None => None
    case Some(n) => Some(Sym(n))
  }

  lemma ReadWrite(s: Symbol)
    ensures Read(Write(s)) == Some(s) && Printable(Write(s)) && !Upper(Write(s)) && Write(s) != '1'
  {
    PlaceIsInverse(Number(s), 'q');
    CharIsPlain(Number(s));
    SymOfNumber(s);
    hide PlaceOf, CharAt, Sym, Number;
  }

  lemma WriteRead(c: char)
    requires Read(c).Some?
    ensures Write(Read(c).value) == LowerCase(c)
  {
    PlaceIsInverse(0, LowerCase(c));
    NumberOfSym(PlaceOf(LowerCase(c)).value);
    hide PlaceOf, CharAt, Sym, Number;
  }

  function Text(vs: seq<Symbol>): (t: string)
    ensures |t| == |vs| && forall i :: 0 <= i < |vs| ==> t[i] == Write(vs[i])
  {
    seq(|vs|, i requires 0 <= i < |vs| => Write(vs[i]))
  }

  predicate Readable(t: string) {
    forall i :: 0 <= i < |t| ==> Read(t[i]).Some?
  }

  function Values(t: string): (vs: seq<Symbol>)
    requires Readable(t)
    ensures |vs| == |t| && forall i :: 0 <= i < |t| ==> vs[i] == Read(t[i]).value
  {
    seq(|t|, i requires 0 <= i < |t| => Read(t[i]).value)
  }

  // ----- Strings -----

  predicate Characters(s: string) {
    && (forall i :: 0 <= i < |s| ==> Printable(s[i]))
    && !((exists i :: 0 <= i < |s| && Upper(s[i])) && (exists i :: 0 <= i < |s| && Lower(s[i])))
  }

  /** The place of the last separator, or -1. */
  function LastOne(s: string): (p: int)
    ensures -1 <= p < |s| && (p >= 0 ==> s[p] == '1') && forall i :: p < i < |s| ==> s[i] != '1'
  {
    if s == "" then -1 else if s[|s| - 1] == '1' then |s| - 1 else LastOne(s[..|s| - 1])
  }

  function Limit(long: bool): nat {
    if long then 1000 else 90
  }

  datatype Result = Result(modified: bool, hrp: string, values: seq<Symbol>)

  function Encoded(long: bool, r: Result): string {
    r.hrp + "1" + Text(r.values + Checksum(long, r.modified, ExpandHrp(r.hrp) + r.values))
  }

  function Decoded(long: bool, s: string): Option<Result> {
    var pos := LastOne(s);
    if !Characters(s) || |s| > Limit(long) || pos <= 0 || pos + 1 + Size(long) > |s| || !Readable(s[pos + 1..]) then None else
    var hrp, vs := LowerAll(s[..pos]), Values(s[pos + 1..]);
    match VerifyChecksum(long, hrp, vs)
    case None => None
    case Some(modified) => Some(Result(modified, hrp, vs[..|vs| - Size(long)]))
  }

  /** A human-readable part that an encoder accepts. */
  ghost predicate LegalHrp(hrp: string) {
    hrp != "" && forall i :: 0 <= i < |hrp| ==> Printable(hrp[i]) && !Upper(hrp[i])
  }

  lemma ReadText(vs: seq<Symbol>)
    ensures Readable(Text(vs)) && Values(Text(vs)) == vs
    ensures forall i :: 0 <= i < |vs| ==> Printable(Text(vs)[i]) && !Upper(Text(vs)[i]) && Text(vs)[i] != '1'
  {
    forall i | 0 <= i < |vs|
      ensures Read(Text(vs)[i]) == Some(vs[i]) && Printable(Text(vs)[i]) && !Upper(Text(vs)[i]) && Text(vs)[i] != '1'
    {
      ReadWrite(vs[i]);
    }
    hide Read, Write, Printable, Upper;
  }

  lemma TextRead(t: string)
    requires Readable(t)
    ensures Text(Values(t)) == LowerAll(t)
  {
    forall i | 0 <= i < |t| ensures Text(Values(t))[i] == LowerAll(t)[i] {
      WriteRead(t[i]);
    }
  }

  lemma LastOneIs(s: string, p: int)
    requires -1 <= p < |s| && (p >= 0 ==> s[p] == '1') && forall i :: p < i < |s| ==> s[i] != '1'
    ensures LastOne(s) == p
  {
  }

  lemma Verified(long: bool, r: Result)
    ensures var enc := ExpandHrp(r.hrp) + r.values; var chk := Checksum(long, r.modified, enc);
            VerifyChecksum(long, r.hrp, r.values + chk) == Some(r.modified)
  {
    hide PolyMod, ExpandHrp, Constant, Checksum;
    var enc := ExpandHrp(r.hrp) + r.values;
    var chk := Checksum(long, r.modified, enc);
    ChecksumIs(long, r.modified, enc, chk);
    assert ExpandHrp(r.hrp) + (r.values + chk) == enc + chk;
    ConstantsDiffer(long);
  }

  /** Decoding what was encoded gives the encoding, the human-readable part and the payload back. */
  lemma DecodeEncode(long: bool, r: Result)
    requires LegalHrp(r.hrp) && |r.hrp| + 1 + |r.values| + Size(long) <= Limit(long)
    ensures Decoded(long, Encoded(long, r)) == Some(r)
  {
    var all := r.values + Checksum(long, r.modified, ExpandHrp(r.hrp) + r.values);
    var s, pos := Encoded(long, r), |r.hrp|;
    ReadText(all);
    Verified(long, r);
    hide Checksum, ExpandHrp, VerifyChecksum, Read, Write, Text, Values;
    assert s[..pos] == r.hrp && s[pos + 1..] == Text(all) && s[pos] == '1';
    assert forall i :: 0 <= i < |s| ==> s[i] == if i < pos then r.hrp[i] else if i == pos then '1' else Text(all)[i - pos - 1];
    LastOneIs(s, pos);
    assert LowerAll(r.hrp) == r.hrp;
    assert all[..|all| - Size(long)] == r.values;
    hide LastOne;
  }

  /** Encoding what was decoded gives the string back, in lower case. */
  lemma EncodeDecode(long: bool, s: string)
    requires Decoded(long, s).Some?
    ensures Encoded(long, Decoded(long, s).value) == LowerAll(s)
  {
    hide *;
    DecodedParts(long, s);
    var r, pos, n := Decoded(long, s).value, LastOne(s), Size(long);
    var vs := Values(s[pos + 1..]);
    var chk := vs[|vs| - n..];
    assert vs == r.values + chk;
    var enc := ExpandHrp(r.hrp) + r.values;
    assert ExpandHrp(r.hrp) + vs == enc + chk;
    ChecksumIs(long, r.modified, enc, chk);
    TextRead(s[pos + 1..]);
    LowerSplit(s, pos);
    EncodedIs(long, r);
  }

  lemma DecodedParts(long: bool, s: string)
    requires Decoded(long, s).Some?
    ensures var r, pos, n := Decoded(long, s).value, LastOne(s), Size(long);
            && 0 < pos && pos + 1 + n <= |s| && Readable(s[pos + 1..]) && r.hrp == LowerAll(s[..pos])
            && var vs := Values(s[pos + 1..]);
               r.values == vs[..|vs| - n] && PolyMod(long, ExpandHrp(r.hrp) + vs) == Constant(long, r.modified)
  {
    hide PolyMod, ExpandHrp, Constant, Read, LastOne, Characters, LowerCase, Readable;
  }

  lemma LowerSplit(s: string, pos: nat)
    requires pos < |s| && s[pos] == '1'
    ensures LowerAll(s) == LowerAll(s[..pos]) + "1" + LowerAll(s[pos + 1..])
  {
  }

  lemma EncodedIs(long: bool, r: Result)
    ensures Encoded(long, r) == r.hrp + "1" + Text(r.values + Checksum(long, r.modified, ExpandHrp(r.hrp) + r.values))
  {
    hide Text, Checksum, ExpandHrp;
  }

  // ----- The packed remainder -----

  /** Exclusive or of the binary digits. */
  function BitXor(a: nat, b: nat): nat {
    if a == 0 && b == 0 then 0 else 2 * BitXor(a / 2, b / 2) + (a + b) % 2
  }

  function Value(v: Symbol): (n: nat)
    ensures n < 32
  {
    (if v.b16 then 16 else 0) + (if v.b8 then 8 else 0) + (if v.b4 then 4 else 0) + (if v.b2 then 2 else 0) + if v.b1 then 1 else 0
  }

  function XorIf(on: bool, c: nat, word: nat): nat {
    if on then BitXor(c, word) else c
  }

  /** Move the groups up by one, append `v`, and add the multiples of the generator that the top group asks for. */
  function PackedStep(long: bool, c: nat, v: Symbol): nat {
    var n := Size(long) - 1;
    Added(Top(c, n), Moved(c, v, n), Multiples(long))
  }

  /** The top group of `n + 1`. */
  function Top(c: nat, n: nat): nat {
    c / Pow(32, n)
  }

  /** The `n` groups below the top one, and `v` after them. */
  function Moved(c: nat, v: Symbol, n: nat): nat {
    BitXor(c % Pow(32, n) * 32, Value(v))
  }

  /** For each bit of `c0` that is set, add the multiple that belongs to it. */
  function Added(c0: nat, c1: nat, w: Words): nat {
    var c2 := XorIf(c0 % 2 == 1, c1, w.w1);
    var c3 := XorIf(c0 / 2 % 2 == 1, c2, w.w2);
    var c4 := XorIf(c0 / 4 % 2 == 1, c3, w.w4);
    var c5 := XorIf(c0 / 8 % 2 == 1, c4, w.w8);
    XorIf(c0 / 16 % 2 == 1, c5, w.w16)
  }

  lemma HalfOf(y: nat, r: nat)
    requires r < 2
    ensures (2 * y + r) % 2 == r && (2 * y + r) / 2 == y
  {
  }

  lemma XorHalf(a: nat, b: nat)
    ensures BitXor(a, b) % 2 == (a + b) % 2 && BitXor(a, b) / 2 == BitXor(a / 2, b / 2)
  {
    if a == 0 && b == 0 {
      assert BitXor(0, 0) == 0;
    } else {
      var y, r := BitXor(a / 2, b / 2), (a + b) % 2;
      assert BitXor(a, b) == 2 * y + r;
      hide BitXor;
      HalfOf(y, r);
    }
  }

  /** The number with these binary digits. */
  lemma BitsSym(b16: nat, b8: nat, b4: nat, b2: nat, b1: nat)
    requires b16 < 2 && b8 < 2 && b4 < 2 && b2 < 2 && b1 < 2
    ensures Sym(16 * b16 + 8 * b8 + 4 * b4 + 2 * b2 + b1) == Symbol(b16 == 1, b8 == 1, b4 == 1, b2 == 1, b1 == 1)
  {
    var n := 16 * b16 + 8 * b8 + 4 * b4 + 2 * b2 + b1;
    DivUnique(n, 16, b16, n - 16 * b16);
    DivUnique(n, 8, 2 * b16 + b8, n - 8 * (2 * b16 + b8));
    DivUnique(n, 4, 4 * b16 + 2 * b8 + b4, n - 4 * (4 * b16 + 2 * b8 + b4));
    DivUnique(n, 2, 8 * b16 + 4 * b8 + 2 * b4 + b2, b1);
    HalfOf(8 * b16 + 4 * b8 + 2 * b4 + b2, b1);
    HalfOf(4 * b16 + 2 * b8 + b4, b2);
    HalfOf(2 * b16 + b8, b4);
    HalfOf(b16, b8);
  }

  lemma SymBits(n: nat)
    ensures Sym(n % 32) == Symbol(n / 2 / 2 / 2 / 2 % 2 == 1, n / 2 / 2 / 2 % 2 == 1, n / 2 / 2 % 2 == 1, n / 2 % 2 == 1, n % 2 == 1)
    ensures n / 32 == n / 2 / 2 / 2 / 2 / 2
  {
    hide Sym;
    var n1, n2, n3, n4, n5 := n / 2, n / 2 / 2, n / 2 / 2 / 2, n / 2 / 2 / 2 / 2, n / 2 / 2 / 2 / 2 / 2;
    var b1, b2, b4, b8, b16 := n % 2, n1 % 2, n2 % 2, n3 % 2, n4 % 2;
    DivMod(n, 2);
    DivMod(n1, 2);
    DivMod(n2, 2);
    DivMod(n3, 2);
    DivMod(n4, 2);
    DivUnique(n, 32, n5, 16 * b16 + 8 * b8 + 4 * b4 + 2 * b2 + b1);
    BitsSym(b16, b8, b4, b2, b1);
  }

  lemma XorLow(a: nat, b: nat)
    ensures Sym(BitXor(a, b) % 32) == Xor(Sym(a % 32), Sym(b % 32))
    ensures BitXor(a, b) / 32 == BitXor(a / 32, b / 32)
  {
    hide BitXor, Sym;
    var a1, a2, a3, a4 := a / 2, a / 2 / 2, a / 2 / 2 / 2, a / 2 / 2 / 2 / 2;
    var b1, b2, b3, b4 := b / 2, b / 2 / 2, b / 2 / 2 / 2, b / 2 / 2 / 2 / 2;
    SymBits(a);
    SymBits(b);
    SymBits(BitXor(a, b));
    XorHalf(a, b);
    XorHalf(a1, b1);
    XorHalf(a2, b2);
    XorHalf(a3, b3);
    XorHalf(a4, b4);
    OddSum(a, b);
    OddSum(a1, b1);
    OddSum(a2, b2);
    OddSum(a3, b3);
    OddSum(a4, b4);
  }

  lemma OddSum(a: nat, b: nat)
    ensures (a + b) % 2 == 1 <==> (a % 2 == 1) != (b % 2 == 1)
  {
  }

  lemma GroupLow(word: nat, k: nat)
    ensures Group(word, 0) == Sym(word % 32) && Group(word, k + 1) == Group(word / 32, k)
  {
    LastGroup(word);
    DivDiv(word, 32, Pow(32, k));
    hide Sym;
  }

  lemma {:induction false} GroupXor(a: nat, b: nat, k: nat)
    ensures Group(BitXor(a, b), k) == Xor(Group(a, k), Group(b, k))
    decreases k
  {
    hide Group, Sym, Xor, BitXor;
    XorLow(a, b);
    if k == 0 {
      GroupLow(a, 0);
      GroupLow(b, 0);
      GroupLow(BitXor(a, b), 0);
    } else {
      GroupXor(a / 32, b / 32, k - 1);
      GroupLow(a, k - 1);
      GroupLow(b, k - 1);
      GroupLow(BitXor(a, b), k - 1);
    }
  }

  lemma GroupsXor(long: bool, a: nat, b: nat)
    ensures Groups(long, BitXor(a, b)) == XorAll(Groups(long, a), Groups(long, b))
  {
    hide Group, Xor, BitXor;
    forall i | 0 <= i < Size(long)
      ensures Groups(long, BitXor(a, b))[i] == XorAll(Groups(long, a), Groups(long, b))[i]
    {
      GroupXor(a, b, Size(long) - 1 - i);
    }
  }

  lemma {:induction false} XorFits(a: nat, b: nat, m: nat)
    requires a < Pow(32, m) && b < Pow(32, m)
    ensures BitXor(a, b) < Pow(32, m)
    decreases m
  {
    if m > 0 {
      DivBound(a, 32, Pow(32, m - 1));
      DivBound(b, 32, Pow(32, m - 1));
      XorFits(a / 32, b / 32, m - 1);
      XorLow(a, b);
      hide BitXor, Pow;
    }
  }

  lemma GroupIf(on: bool, c: nat, word: nat, k: nat)
    ensures Group(XorIf(on, c, word), k) == Xor(Group(c, k), Gate(on, Group(word, k)))
  {
    GroupXor(c, word, k);
    XorLaws(Group(c, k), Group(word, k));
    hide Group, Xor, BitXor;
  }

  lemma ValueSym(v: Symbol)
    ensures Sym(Value(v)) == v
  {
  }

  lemma {:induction false} GroupZero(k: nat)
    ensures Group(0, k) == ZERO
  {
    if k > 0 {
      GroupZero(k - 1);
      GroupLow(0, k - 1);
    } else {
      LastGroup(0);
    }
  }

  /** The low groups of a number are those of its remainder. */
  lemma {:induction false} GroupMod(c: nat, n: nat, k: nat)
    requires k < n
    ensures Group(c % Pow(32, n), k) == Group(c, k)
    decreases k
  {
    var r := c % Pow(32, n);
    ModLow(c, n);
    if k == 0 {
      GroupLow(c, 0);
      GroupLow(r, 0);
    } else {
      GroupMod(c / 32, n - 1, k - 1);
      GroupLow(c, k - 1);
      GroupLow(r, k - 1);
    }
  }

  lemma ModLow(c: nat, n: nat)
    requires n > 0
    ensures var r := c % Pow(32, n); r % 32 == c % 32 && r / 32 == c / 32 % Pow(32, n - 1)
  {
    var p := Pow(32, n - 1);
    var q, r := c / (32 * p), c % (32 * p);
    DivMod(c, 32 * p);
    MulAssoc(q, 32, p);
    assert q * (32 * p) == 32 * (q * p);
    hide Pow;
    DivBound(r, 32, p);
    DivUnique(c / 32, p, q, r / 32);
  }

  /** The groups after the move. */
  lemma MovedIs(c: nat, v: Symbol, n: nat)
    ensures Moved(c, v, n) == BitXor(c % Pow(32, n) * 32, Value(v))
  {
    hide BitXor, Pow, Value;
  }

  lemma MovedGroup(c: nat, v: Symbol, n: nat, k: nat)
    requires k <= n
    ensures Group(Moved(c, v, n), k) == if k == 0 then v else Group(c, k - 1)
  {
    hide *;
    var x := c % Pow(32, n);
    MovedIs(c, v, n);
    GroupXor(x * 32, Value(v), k);
    ValueSym(v);
    Times32(x, Value(v));
    if k == 0 {
      GroupLow(x * 32, 0);
      GroupLow(Value(v), 0);
      GroupLow(0, 0);
      GroupZero(0);
      Digit0();
      XorLaws(v, ZERO);
    } else {
      GroupLow(x * 32, k - 1);
      GroupLow(Value(v), k - 1);
      GroupZero(k - 1);
      GroupMod(c, n, k - 1);
      XorLaws(Group(c, k - 1), ZERO);
    }
  }

  lemma Times32(x: nat, v: nat)
    requires v < 32
    ensures x * 32 % 32 == 0 && x * 32 / 32 == x && v % 32 == v && v / 32 == 0
  {
  }

  lemma Digit0()
    ensures 0 % 32 == 0 && Sym(0) == ZERO
  {
  }

  lemma XorChain(g: Symbol, x: Symbol, col: Column)
    ensures Xor(Xor(Xor(Xor(Xor(g, Gate(x.b1, col.g1)), Gate(x.b2, col.g2)), Gate(x.b4, col.g4)), Gate(x.b8, col.g8)), Gate(x.b16, col.g16))
         == Xor(g, Choose(x, col))
  {
    var a, b, c, d, e := Gate(x.b1, col.g1), Gate(x.b2, col.g2), Gate(x.b4, col.g4), Gate(x.b8, col.g8), Gate(x.b16, col.g16);
    hide Gate;
    XorAssoc(g, a, b);
    XorAssoc(g, Xor(a, b), c);
    XorAssoc(Xor(a, b), c, d);
    XorAssoc(g, Xor(Xor(a, b), c), d);
    XorAssoc(g, Xor(Xor(a, b), Xor(c, d)), e);
    hide Xor;
  }

  lemma XorAssoc(a: Symbol, b: Symbol, c: Symbol)
    ensures Xor(Xor(a, b), c) == Xor(a, Xor(b, c))
  {
  }

  /** The bits of the top group. */
  lemma TopBits(c: nat, n: nat)
    requires c < Pow(32, n + 1)
    ensures Group(c, n) == Bits(Top(c, n))
  {
    DivBound(c, Pow(32, n), 32);
    hide Pow;
    var c0 := c / Pow(32, n);
    GroupIs(c, n);
    hide Group;
    SmallMod(c0);
  }

  lemma GroupIs(word: nat, k: nat)
    ensures Group(word, k) == Sym(word / Pow(32, k) % 32)
  {
    hide Pow, Sym;
  }

  lemma SmallMod(x: nat)
    requires x < 32
    ensures x % 32 == x
  {
  }

  /** Group `k` after adding the chosen multiples to a number. */
  lemma AddedGroup(c0: nat, c1: nat, w: Words, k: nat)
    ensures var x := Bits(c0);
            Group(Added(c0, c1, w), k) == Xor(Group(c1, k), Choose(x, Columns(w.w1, w.w2, w.w4, w.w8, w.w16, k)))
  {
    hide Group, Xor, XorIf, Gate, Choose;
    var x := Bits(c0);
    var c2 := XorIf(x.b1, c1, w.w1);
    var c3 := XorIf(x.b2, c2, w.w2);
    var c4 := XorIf(x.b4, c3, w.w4);
    var c5 := XorIf(x.b8, c4, w.w8);
    GroupIf(x.b1, c1, w.w1, k);
    GroupIf(x.b2, c2, w.w2, k);
    GroupIf(x.b4, c3, w.w4, k);
    GroupIf(x.b8, c4, w.w8, k);
    GroupIf(x.b16, c5, w.w16, k);
    XorChain(Group(c1, k), x, Columns(w.w1, w.w2, w.w4, w.w8, w.w16, k));
  }

  lemma GroupsAt(long: bool, c: nat, i: nat)
    requires i < Size(long)
    ensures Remainder(long, Groups(long, c)) && Groups(long, c)[i] == Group(c, Size(long) - 1 - i)
  {
    hide Group;
  }

  /** The symbol that the bits of a small number make. */
  function Bits(c0: nat): Symbol {
    Symbol(c0 / 16 % 2 == 1, c0 / 8 % 2 == 1, c0 / 4 % 2 == 1, c0 / 2 % 2 == 1, c0 % 2 == 1)
  }

  lemma GeneratorIs(long: bool, i: nat)
    requires i < Size(long)
    ensures var w := Multiples(long); Generator(long, i) == Columns(w.w1, w.w2, w.w4, w.w8, w.w16, Size(long) - 1 - i)
  {
    hide Columns, Multiples;
  }

  lemma PackedStepUnfold(long: bool, c: nat, v: Symbol)
    ensures var n := Size(long) - 1; PackedStep(long, c, v) == Added(Top(c, n), Moved(c, v, n), Multiples(long))
  {
    hide Added, Top, Moved, Multiples;
  }

  lemma PackedValue(long: bool, c: nat, v: Symbol, i: nat)
    requires c < Pow(32, Size(long)) && i < Size(long)
    ensures var k := Size(long) - 1 - i;
            Group(PackedStep(long, c, v), k) ==
              Xor(if k == 0 then v else Group(c, k - 1), Choose(Group(c, Size(long) - 1), Generator(long, i)))
  {
    hide *;
    var n, k, w := Size(long) - 1, Size(long) - 1 - i, Multiples(long);
    PackedStepUnfold(long, c, v);
    GeneratorIs(long, i);
    TopBits(c, n);
    MovedGroup(c, v, n, k);
    AddedGroup(Top(c, n), Moved(c, v, n), w, k);
  }

  /** Group `i` of the packed step. */
  lemma PackedGroup(long: bool, c: nat, v: Symbol, i: nat)
    requires c < Pow(32, Size(long)) && i < Size(long)
    ensures Remainder(long, Groups(long, c)) && Group(PackedStep(long, c, v), Size(long) - 1 - i) == Step(long, Groups(long, c), v)[i]
  {
    hide *;
    var m := Size(long);
    GroupsAt(long, c, i);
    PackedValue(long, c, v, i);
    StepAt(long, Groups(long, c), v, i);
    GroupsAt(long, c, 0);
    if i + 1 < m {
      GroupsAt(long, c, i + 1);
    }
  }

  lemma IfFits(on: bool, c: nat, word: nat, m: nat)
    requires c < Pow(32, m) && word < Pow(32, m)
    ensures XorIf(on, c, word) < Pow(32, m)
  {
    XorFits(c, word, m);
    hide BitXor, Pow;
  }

  lemma MultiplesFit(long: bool)
    ensures var w, p := Multiples(long), Pow(32, Size(long));
            w.w1 < p && w.w2 < p && w.w4 < p && w.w8 < p && w.w16 < p
  {
    SmallPowers();
    hide Pow;
  }

  lemma SmallPowers()
    ensures Pow(32, 6) == 0x40000000 && Pow(32, 12) == 0x1000000000000000
  {
    assert Pow(32, 3) == 32768;
    PowAdd(32, 3, 3);
    PowAdd(32, 6, 6);
    hide Pow;
  }

  lemma ConstantsFit(long: bool)
    ensures EncodingConstant(long, false) < Pow(32, Size(long)) && EncodingConstant(long, true) < Pow(32, Size(long))
  {
    SmallPowers();
    hide Pow;
  }

  /** One step on the packed remainder is one step on its groups. */
  lemma PackedStepIs(long: bool, c: nat, v: Symbol)
    requires c < Pow(32, Size(long))
    ensures PackedStep(long, c, v) < Pow(32, Size(long)) && Remainder(long, Groups(long, c))
    ensures Groups(long, PackedStep(long, c, v)) == Step(long, Groups(long, c), v)
  {
    PackedFits(long, c, v);
    hide PackedStep, Step, Group, Pow;
    forall i | 0 <= i < Size(long) ensures Groups(long, PackedStep(long, c, v))[i] == Step(long, Groups(long, c), v)[i] {
      PackedGroup(long, c, v, i);
    }
  }

  lemma PackedFits(long: bool, c: nat, v: Symbol)
    ensures PackedStep(long, c, v) < Pow(32, Size(long))
  {
    var m, w := Size(long), Multiples(long);
    var top := Pow(32, m - 1);
    assert Pow(32, m) == 32 * top;
    MultiplesFit(long);
    hide Pow, BitXor, Value, XorIf, Multiples;
    DivMod(c, top);
    PowGrows(32, 1, m);
    OneDigit();
    XorFits(c % top * 32, Value(v), m);
    var c0, c1 := Top(c, m - 1), Moved(c, v, m - 1);
    IfFits(c0 % 2 == 1, c1, w.w1, m);
    var c2 := XorIf(c0 % 2 == 1, c1, w.w1);
    IfFits(c0 / 2 % 2 == 1, c2, w.w2, m);
    var c3 := XorIf(c0 / 2 % 2 == 1, c2, w.w2);
    IfFits(c0 / 4 % 2 == 1, c3, w.w4, m);
    var c4 := XorIf(c0 / 4 % 2 == 1, c3, w.w4);
    IfFits(c0 / 8 % 2 == 1, c4, w.w8, m);
    var c5 := XorIf(c0 / 8 % 2 == 1, c4, w.w8);
    IfFits(c0 / 16 % 2 == 1, c5, w.w16, m);
  }

  lemma OneDigit()
    ensures Pow(32, 1) == 32
  {
  }

  lemma SymUnique(a: nat, b: nat)
    requires a < 32 && b < 32 && Sym(a) == Sym(b)
    ensures a == b
  {
    NumberOfSym(a);
    NumberOfSym(b);
    hide Sym, Number;
  }

  lemma {:induction false} GroupsDecide(a: nat, b: nat, m: nat)
    requires a < Pow(32, m) && b < Pow(32, m) && forall k :: 0 <= k < m ==> Group(a, k) == Group(b, k)
    ensures a == b
    decreases m
  {
    if m > 0 {
      DivBound(a, 32, Pow(32, m - 1));
      DivBound(b, 32, Pow(32, m - 1));
      hide Pow, Group, Sym;
      GroupLow(a, 0);
      GroupLow(b, 0);
      assert Group(a, 0) == Group(b, 0);
      SymUnique(a % 32, b % 32);
      forall k | 0 <= k < m - 1 ensures Group(a / 32, k) == Group(b / 32, k) {
        GroupLow(a, k);
        GroupLow(b, k);
        assert Group(a, k + 1) == Group(b, k + 1);
      }
      GroupsDecide(a / 32, b / 32, m - 1);
    }
  }

  /** Packed remainders are equal exactly if their groups are. */
  lemma SameGroups(long: bool, a: nat, b: nat)
    requires a < Pow(32, Size(long)) && b < Pow(32, Size(long))
    ensures Groups(long, a) == Groups(long, b) <==> a == b
  {
    hide Pow, Group;
    if Groups(long, a) == Groups(long, b) {
      forall k | 0 <= k < Size(long) ensures Group(a, k) == Group(b, k) {
        assert Groups(long, a)[Size(long) - 1 - k] == Groups(long, b)[Size(long) - 1 - k];
      }
      GroupsDecide(a, b, Size(long));
    }
  }

  // ----- The loops -----

  method ComputePolyMod(long: bool, vs: seq<Symbol>) returns (c: nat)
    ensures c < Pow(32, Size(long)) && Groups(long, c) == PolyMod(long, vs)
  {
    hide *;
    c := 1;
    OneFits(long);
    assert vs[..0] == [];
    for k := 0 to |vs|
      invariant c < Pow(32, Size(long)) && Groups(long, c) == PolyMod(long, vs[..k])
    {
      PackedStepIs(long, c, vs[k]);
      PolyModNext(long, vs, k);
      c := PackedStep(long, c, vs[k]);
    }
    assert vs[..|vs|] == vs;
  }

  lemma PolyModNext(long: bool, vs: seq<Symbol>, k: nat)
    requires k < |vs|
    ensures Remainder(long, PolyMod(long, vs[..k])) && PolyMod(long, vs[..k + 1]) == Step(long, PolyMod(long, vs[..k]), vs[k])
  {
    hide One, Step;
    assert vs[..k + 1][..k] == vs[..k];
  }

  lemma OneFits(long: bool)
    ensures 1 < Pow(32, Size(long)) && Groups(long, 1) == PolyMod(long, [])
  {
    hide Group;
    PowGrows(32, 1, Size(long));
    assert Pow(32, 1) == 32;
  }

  method Expand(hrp: string) returns (ret: seq<Symbol>)
    ensures ret == ExpandHrp(hrp)
  {
    hide Sym;
    var n := |hrp|;
    var a := new Symbol[2 * n + 1](_ => ZERO);
    for i := 0 to n
      invariant forall k :: 0 <= k < i ==> a[k] == Sym(hrp[k] as nat / 32) && a[k + n + 1] == Sym(hrp[k] as nat % 32)
      invariant a[n] == ZERO
    {
      a[i] := Sym(hrp[i] as nat / 32);
      a[i + n + 1] := Sym(hrp[i] as nat % 32);
    }
    ret := a[..];
  }

  method CreateChecksum(long: bool, modified: bool, hrp: string, values: seq<Symbol>) returns (ret: seq<Symbol>)
    ensures ret == Checksum(long, modified, ExpandHrp(hrp) + values)
  {
    hide PolyMod, ExpandHrp, Xor, BitXor, Group, EncodingConstant, Pow;
    var enc := Expand(hrp);
    enc := enc + values + Zero(Size(long));
    var mod := ComputePolyMod(long, enc);
    ghost var poly := mod;
    mod := BitXor(mod, EncodingConstant(long, modified));
    GroupsXor(long, poly, EncodingConstant(long, modified));
    ret := [];
    for i := 0 to Size(long)
      invariant ret == Groups(long, mod)[..i]
    {
      ret := ret + [Group(mod, Size(long) - 1 - i)];
    }
    assert Groups(long, mod)[..Size(long)] == Groups(long, mod);
  }

  /** Compare the packed remainder with the packed constants. */
  method CheckChecksum(long: bool, hrp: string, values: seq<Symbol>) returns (r: Option<bool>)
    ensures r == VerifyChecksum(long, hrp, values)
  {
    hide PolyMod, ExpandHrp, Groups, Pow, Size;
    var enc := Expand(hrp);
    var check := ComputePolyMod(long, enc + values);
    ConstantsFit(long);
    SameGroups(long, check, EncodingConstant(long, false));
    SameGroups(long, check, EncodingConstant(long, true));
    if check == EncodingConstant(long, false) {
      return Some(false);
    }
    if check == EncodingConstant(long, true) {
      return Some(true);
    }
    return None;
  }

  method Encode(long: bool, modified: bool, hrp: string, values: seq<Symbol>) returns (ret: string)
    requires forall i :: 0 <= i < |hrp| ==> !Upper(hrp[i])
    ensures ret == Encoded(long, Result(modified, hrp, values))
  {
    hide Checksum, ExpandHrp, Write;
    var checksum := CreateChecksum(long, modified, hrp, values);
    var combined := values + checksum;
    ret := hrp + "1";
    for i := 0 to |combined|
      invariant ret == hrp + "1" + Text(combined)[..i]
    {
      ret := ret + [Write(combined[i])];
    }
    assert Text(combined)[..|combined|] == Text(combined);
  }

  method CheckCharacters(s: string) returns (ok: bool)
    ensures ok <==> Characters(s)
  {
    var lower, upper := false, false;
    for i := 0 to |s|
      invariant forall k :: 0 <= k < i ==> Printable(s[k])
      invariant lower <==> exists k :: 0 <= k < i && Lower(s[k])
      invariant upper <==> exists k :: 0 <= k < i && Upper(s[k])
    {
      if Lower(s[i]) {
        lower := true;
      } else if Upper(s[i]) {
        upper := true;
      } else if !Printable(s[i]) {
        return false;
      }
    }
    ok := !(lower && upper);
  }

  method Decode(long: bool, s: string) returns (r: Option<Result>)
    ensures r == Decoded(long, s)
  {
    hide VerifyChecksum, Read, Characters, LowerCase, LastOne, Size;
    var ok := CheckCharacters(s);
    if !ok {
      return None;
    }
    var pos: int := |s| - 1;
    while pos >= 0 && s[pos] != '1'
      invariant -1 <= pos < |s| && forall i :: pos < i < |s| ==> s[i] != '1'
    {
      pos := pos - 1;
    }
    LastOneIs(s, pos);
    if |s| > Limit(long) || pos == -1 || pos == 0 || pos + 1 + Size(long) > |s| {
      return None;
    }
    var data := s[pos + 1..];
    var values := [];
    for i := 0 to |data|
      invariant |values| == i && forall k :: 0 <= k < i ==> Read(data[k]) == Some(values[k])
    {
      var rev := Read(data[i]);
      if rev.None? {
        return None;
      }
      values := values + [rev.value];
    }
    assert Readable(data) && values == Values(data);
    var hrp := "";
    for i := 0 to pos
      invariant hrp == LowerAll(s[..pos])[..i]
    {
      hrp := hrp + [LowerCase(s[i])];
    }
    assert hrp == LowerAll(s[..pos]);
    var result := CheckChecksum(long, hrp, values);
    if result.None? {
      return None;
    }
    return Some(Result(result.value, hrp, values[..|values| - Size(long)]));
  }
}
