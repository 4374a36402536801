/**
 The bookkeeping of blinding scalars when several parties blind the outputs of one
 transaction (src/blindpsbt.cpp).

 Scalars are 256-bit numbers; the library calls work modulo the group order `n` and refuse
 zero and numbers outside the group.  Commitments and proofs are left abstract: an output
 that is blinded just remembers the blinders its commitments open to.
 */
module Blind {
  import opened Power

  // ----- Congruence -----

  /** Equal modulo the group order. */
  ghost predicate Cong(n: nat, a: int, b: int)
    requires n > 0
  {
    (a - b) % n == 0
  }

  lemma CongBy(n: nat, a: int, b: int, k: int)
    requires n > 0 && a == b + k * n
    ensures Cong(n, a, b)
  {
    DivUnique(a - b, n, k, 0);
  }

  lemma CongQuotient(n: nat, a: int, b: int) returns (k: int)
    requires n > 0 && Cong(n, a, b)
    ensures a == b + k * n
  {
    k := (a - b) / n;
    DivMod(a - b, n);
  }

  lemma CongMod(n: nat, a: int)
    requires n > 0
    ensures Cong(n, a % n, a)
  {
    DivMod(a, n);
    CongBy(n, a % n, a, -(a / n));
  }

  lemma CongAdd(n: nat, a: int, b: int, c: int, d: int)
    requires n > 0 && Cong(n, a, b) && Cong(n, c, d)
    ensures Cong(n, a + c, b + d) && Cong(n, a - c, b - d)
  {
    var k := CongQuotient(n, a, b);
    var l := CongQuotient(n, c, d);
    Distribute(k, l, n);
    CongBy(n, a + c, b + d, k + l);
    CongBy(n, a - c, b - d, k - l);
  }

  lemma CongTrans(n: nat, a: int, b: int, c: int)
    requires n > 0 && Cong(n, a, b) && Cong(n, b, c)
    ensures Cong(n, a, c)
  {
    CongAdd(n, a, b, b, c);
  }

  /** The representative below the order. */
  lemma CongIs(n: nat, r: nat, a: int)
    requires n > 0 && Cong(n, r, a) && r < n
    ensures r == a % n
  {
    var k := CongQuotient(n, r, a);
    assert (-k) * n == -(k * n);
    DivUnique(a, n, -k, r);
  }

  lemma CongRefl(n: nat, a: int)
    requires n > 0
    ensures Cong(n, a, a)
  {
    CongBy(n, a, a, 0);
  }

  // ----- The library calls -----

  datatype Option<T> = None | Some(value: T)

  function Negate(n: nat, x: nat): Option<nat> {
    if x == 0 || x >= n then None else Some(n - x)
  }

  function TweakAdd(n: nat, a: nat, t: nat): Option<nat> {
    if a == 0 || a >= n || t >= n || (a + t) % n == 0 then None else Some((a + t) % n)
  }

  function TweakMul(n: nat, a: nat, t: nat): Option<nat> {
    if a == 0 || a >= n || t == 0 || t >= n then None else Some((a * t) % n)
  }

  // ----- Scalars -----

  /** The offset of an amount: value times asset blinder plus value blinder. */
  function Offset(value: int, assetBlinder: nat, valueBlinder: nat): int {
    value * assetBlinder + valueBlinder
  }

  /** A difference; one of zero of two numbers that are not zero is refused. */
  function Difference(n: nat, a: nat, b: nat): Option<nat>
    requires n > 0
  {
    if b == 0 then Some(a) else if a < n && b < n && a != b then Some((a - b) % n) else None
  }

  lemma DifferenceCong(n: nat, a: nat, b: nat)
    requires n > 0 && Difference(n, a, b).Some?
    ensures Cong(n, Difference(n, a, b).value, a - b)
  {
    CongRefl(n, a);
    CongMod(n, a - b);
  }

  method SubtractScalars(n: nat, a: nat, b: nat) returns (r: Option<nat>)
    requires n > 0
    ensures r == Difference(n, a, b)
    ensures r.Some? ==> Cong(n, r.value, a - b)
  {
    if b == 0 {
      CongRefl(n, a);
      return Some(a);
    }
    var sub := Negate(n, b);
    if sub.None? {
      return None;
    }
    if a == 0 {
      CongBy(n, sub.value, a - b, 1);
      CongIs(n, sub.value, a - b);
      return sub;
    }
    r := TweakAdd(n, a, sub.value);
    SumIsZero(n, a, b);
    if r.Some? {
      CongMod(n, a + sub.value);
      CongBy(n, a + sub.value, a - b, 1);
      CongTrans(n, r.value, a + sub.value, a - b);
      CongIs(n, r.value, a - b);
    }
  }

  lemma SumIsZero(n: nat, a: nat, b: nat)
    requires n > 0 && 0 < b < n
    ensures a < n ==> ((a + (n - b)) % n == 0 <==> a == b)
  {
    if a < n {
      if a >= b {
        DivUnique(a + (n - b), n, 1, a - b);
      } else {
        DivUnique(a + (n - b), n, 0, a + (n - b));
      }
    }
  }

  /**
   The offset as a scalar.  For a group of prime order the product is never zero; an asset
   blinder of zero, or no amount, leaves the value blinder, whatever it is.
   */
  function ScalarOffset(n: nat, value: int, assetBlinder: nat, valueBlinder: nat): Option<nat>
    requires n > 0
  {
    if assetBlinder == 0 || value <= 0 then Some(valueBlinder)
    else if && assetBlinder < n && value < n
            && (valueBlinder == 0 || (valueBlinder < n && assetBlinder * value % n != 0))
    then Some(Offset(value, assetBlinder, valueBlinder) % n)
    else None
  }

  method CalculateScalarOffset(n: nat, value: int, assetBlinder: nat, valueBlinder: nat) returns (r: Option<nat>)
    requires n > 0
    ensures r == ScalarOffset(n, value, assetBlinder, valueBlinder)
    ensures r.Some? && value >= 0 ==> Cong(n, r.value, value * assetBlinder + valueBlinder)
  {
    CongRefl(n, valueBlinder);
    if assetBlinder == 0 {
      return Some(valueBlinder);
    }
    if value <= 0 {
      return Some(valueBlinder);
    }
    var out := TweakMul(n, assetBlinder, value);
    if out.None? {
      return None;
    }
    assert assetBlinder * value == value * assetBlinder;
    CongMod(n, assetBlinder * value);
    if valueBlinder == 0 {
      return out;
    }
    var negated := Negate(n, valueBlinder);
    if negated.None? {
      return None;
    }
    CongAdd(n, out.value, assetBlinder * value, valueBlinder, valueBlinder);
    SumIsZero(n, out.value, n - valueBlinder);
    if negated.value == out.value {
      CongBy(n, 0, out.value + valueBlinder, -1);
      CongTrans(n, 0, out.value + valueBlinder, assetBlinder * value + valueBlinder);
      CongIs(n, 0, assetBlinder * value + valueBlinder);
      return Some(0);
    }
    r := TweakAdd(n, out.value, valueBlinder);
    if r.Some? {
      CongMod(n, out.value + valueBlinder);
      CongTrans(n, r.value, out.value + valueBlinder, assetBlinder * value + valueBlinder);
      CongIs(n, r.value, assetBlinder * value + valueBlinder);
    }
  }

  /** A sum of scalars; a zero offset is refused, unless both blinders are zero or it is the first one. */
  function AddedOffset(n: nat, a: nat, value: int, assetBlinder: nat, valueBlinder: nat): Option<nat>
    requires n > 0
  {
    if assetBlinder == 0 && valueBlinder == 0 then Some(a) else
    var s := ScalarOffset(n, value, assetBlinder, valueBlinder);
    if s.None? || a == 0 then s
    else if 0 < s.value < n && a < n then Some((a + s.value) % n)
    else None
  }

  lemma AddedOffsetCong(n: nat, a: nat, value: nat, assetBlinder: nat, valueBlinder: nat)
    requires n > 0 && AddedOffset(n, a, value, assetBlinder, valueBlinder).Some?
    ensures Cong(n, AddedOffset(n, a, value, assetBlinder, valueBlinder).value, a + Offset(value, assetBlinder, valueBlinder))
  {
    var o := Offset(value, assetBlinder, valueBlinder);
    CongRefl(n, a);
    CongRefl(n, o);
    CongMod(n, o);
    var s := ScalarOffset(n, value, assetBlinder, valueBlinder);
    if s.Some? {
      assert Cong(n, s.value, o);
      CongAdd(n, a, a, s.value, o);
      CongMod(n, a + s.value);
      CongTrans(n, (a + s.value) % n, a + s.value, a + o);
    }
  }

  method ComputeAndAddToScalarOffset(n: nat, a: nat, value: int, assetBlinder: nat, valueBlinder: nat) returns (r: Option<nat>)
    requires n > 0
    ensures r == AddedOffset(n, a, value, assetBlinder, valueBlinder)
    ensures r.Some? && value >= 0 ==> Cong(n, r.value, a + Offset(value, assetBlinder, valueBlinder))
  {
    if assetBlinder == 0 && valueBlinder == 0 {
      CongRefl(n, a);
      return Some(a);
    }
    var scalar := CalculateScalarOffset(n, value, assetBlinder, valueBlinder);
    hide ScalarOffset;
    if scalar.None? {
      return None;
    }
    if a == 0 {
      return scalar;
    }
    var negated := Negate(n, scalar.value);
    if negated.None? {
      return None;
    }
    ghost var o := Offset(value, assetBlinder, valueBlinder);
    CongRefl(n, a);
    if value >= 0 {
      CongAdd(n, a, a, scalar.value, o);
    }
    SumIsZero(n, a, n - scalar.value);
    if negated.value == a {
      CongBy(n, 0, a + scalar.value, -1);
      CongIs(n, 0, a + scalar.value);
      if value >= 0 {
        CongTrans(n, 0, a + scalar.value, a + o);
      }
      return Some(0);
    }
    r := TweakAdd(n, a, scalar.value);
    if r.Some? {
      CongMod(n, a + scalar.value);
      if value >= 0 {
        CongTrans(n, r.value, a + scalar.value, a + o);
      }
    }
  }

  // ----- Sums -----

  ghost function AnyOf(s: set<nat>): (x: nat)
    requires s != {}
    ensures x in s
  {
    var x: int :| x in s;
    x
  }

  ghost function SumSet(s: set<nat>): int {
    if s == {} then 0 else AnyOf(s) + SumSet(s - {AnyOf(s)})
  }

  lemma {:induction false} SumSetWithout(s: set<nat>, x: nat)
    requires x in s
    ensures SumSet(s) == x + SumSet(s - {x})
  {
    var y := AnyOf(s);
    if x != y {
      SumSetWithout(s - {y}, x);
      SumSetWithout(s - {x}, y);
      assert s - {y} - {x} == s - {x} - {y};
    }
  }

  lemma SumSetEmpty()
    ensures SumSet({}) == 0
  {
  }

  lemma CongSwap(n: nat, a: int, b: int)
    requires n > 0 && Cong(n, a, b)
    ensures Cong(n, b, a)
  {
    var k := CongQuotient(n, a, b);
    assert (-k) * n == -(k * n);
    CongBy(n, b, a, -k);
  }

  ghost function Least(s: set<nat>): (m: nat)
    requires s != {}
    ensures m in s && forall x :: x in s ==> m <= x
  {
    var x := AnyOf(s);
    if s == {x} then x else
    assert s == s - {x} + {x};
    var m := Least(s - {x});
    if x < m then x else m
  }

  /** Subtract the offsets, in the order of the set. */
  ghost function SubtractEach(n: nat, a: nat, offsets: set<nat>): Option<nat>
    requires n > 0
    decreases offsets
  {
    if offsets == {} then Some(a) else
    var m := Least(offsets);
    match Difference(n, a, m)
    case None => None
    case Some(d) => SubtractEach(n, d, offsets - {m})
  }

  lemma {:induction false} SubtractEachCong(n: nat, a: nat, offsets: set<nat>)
    requires n > 0 && SubtractEach(n, a, offsets).Some?
    ensures Cong(n, SubtractEach(n, a, offsets).value, a - SumSet(offsets))
    decreases offsets
  {
    if offsets == {} {
      SumSetEmpty();
      CongRefl(n, a);
    } else {
      var m := Least(offsets);
      var d, rest := Difference(n, a, m).value, offsets - {m};
      var r := SubtractEach(n, a, offsets).value;
      DifferenceCong(n, a, m);
      SubtractEachCong(n, d, rest);
      SumSetWithout(offsets, m);
      CongRefl(n, SumSet(rest));
      hide Cong, SumSet, SubtractEach, Difference;
      CongAdd(n, d, a - m, SumSet(rest), SumSet(rest));
      CongTrans(n, r, d - SumSet(rest), a - m - SumSet(rest));
    }
  }

  method SubtractAll(n: nat, a: nat, offsets: set<nat>) returns (r: Option<nat>)
    requires n > 0
    ensures r == SubtractEach(n, a, offsets)
    ensures r.Some? ==> Cong(n, r.value, a - SumSet(offsets))
  {
    hide SumSet, Cong, Difference;
    var rest := offsets;
    r := Some(a);
    while rest != {}
      invariant r.Some? && SubtractEach(n, r.value, rest) == SubtractEach(n, a, offsets)
      decreases rest
    {
      ghost var w: int := Least(rest);
      assert w in rest && forall t :: t in rest ==> w <= t;
      var s: int :| s in rest && forall t :: t in rest ==> s <= t;
      assert s == Least(rest);
      r := SubtractScalars(n, r.value, s);
      if r.None? {
        return;
      }
      rest := rest - {s};
    }
    SubtractEachCong(n, a, offsets);
  }

  /** The value blinder of the last output. */
  ghost function LastValue(n: nat, valueBlinder: nat, outputScalar: nat, inputScalar: nat, offsets: set<nat>): Option<nat>
    requires n > 0
  {
    match Difference(n, outputScalar, inputScalar)
    case None => None
    case Some(x) =>
      match Difference(n, valueBlinder, x)
      case None => None
      case Some(y) => SubtractEach(n, y, offsets)
  }

  lemma LastValueCong(n: nat, valueBlinder: nat, outputScalar: nat, inputScalar: nat, offsets: set<nat>)
    requires n > 0 && LastValue(n, valueBlinder, outputScalar, inputScalar, offsets).Some?
    ensures Cong(n, LastValue(n, valueBlinder, outputScalar, inputScalar, offsets).value,
                 valueBlinder - (outputScalar - inputScalar) - SumSet(offsets))
  {
    var x := Difference(n, outputScalar, inputScalar).value;
    var y := Difference(n, valueBlinder, x).value;
    var r, s := SubtractEach(n, y, offsets).value, SumSet(offsets);
    DifferenceCong(n, outputScalar, inputScalar);
    DifferenceCong(n, valueBlinder, x);
    SubtractEachCong(n, y, offsets);
    CongRefl(n, valueBlinder);
    CongRefl(n, s);
    hide Cong, SumSet, Difference, SubtractEach;
    CongAdd(n, valueBlinder, valueBlinder, x, outputScalar - inputScalar);
    CongTrans(n, y, valueBlinder - x, valueBlinder - (outputScalar - inputScalar));
    CongAdd(n, y, valueBlinder - (outputScalar - inputScalar), s, s);
    CongTrans(n, r, y - s, valueBlinder - (outputScalar - inputScalar) - s);
  }

  /** It makes up for everything blinded before. */
  method LastBlinder(n: nat, valueBlinder: nat, outputScalar: nat, inputScalar: nat, offsets: set<nat>) returns (r: Option<nat>)
    requires n > 0
    ensures r == LastValue(n, valueBlinder, outputScalar, inputScalar, offsets)
    ensures r.Some? ==> Cong(n, r.value, valueBlinder - (outputScalar - inputScalar) - SumSet(offsets))
  {
    hide Cong, SumSet, Difference, SubtractEach;
    var x := SubtractScalars(n, outputScalar, inputScalar);
    if x.None? {
      return None;
    }
    var y := SubtractScalars(n, valueBlinder, x.value);
    if y.None? {
      return None;
    }
    r := SubtractAll(n, y.value, offsets);
    if r.Some? {
      LastValueCong(n, valueBlinder, outputScalar, inputScalar, offsets);
    }
  }

  // ----- The transaction -----

  /** The blinders that the commitments of a blinded output open to. */
  datatype Opening = Opening(assetBlinder: nat, valueBlinder: nat)

  /** An output: whether it is to be blinded, by the owner of which input, and how it was. */
  datatype Output = Output(toBlind: bool, blinderIndex: Option<nat>, amount: Option<nat>, opening: Option<Opening>)

  datatype InputData = InputData(value: nat, assetBlinder: nat, valueBlinder: nat)

  /** A party: what it knows of its inputs, and the blinders it draws. */
  datatype Party = Party(data: map<nat, InputData>, random: nat -> Opening)

  datatype Status = Ok | ScalarUnable | InvalidBlinder | NoBlindOutputs

  /** The transaction between calls: its outputs and the offsets that are passed on. */
  datatype Stage = Stage(outputs: seq<Output>, offsets: set<nat>)

  ghost predicate Sane(outputs: seq<Output>) {
    forall i :: 0 <= i < |outputs| ==> outputs[i].opening.Some? ==> outputs[i].toBlind
  }

  ghost function OutputOffset(o: Output): int {
    if o.opening.Some? && o.amount.Some?
    then Offset(o.amount.value, o.opening.value.assetBlinder, o.opening.value.valueBlinder) else 0
  }

  /** The offsets of all blinded outputs. */
  ghost function OutputSum(outputs: seq<Output>): int {
    if outputs == [] then 0 else OutputSum(outputs[..|outputs| - 1]) + OutputOffset(outputs[|outputs| - 1])
  }

  /** The offsets of the inputs below `k` that a party knows. */
  ghost function InputSum(data: map<nat, InputData>, k: nat): int {
    if k == 0 then 0 else
    InputSum(data, k - 1) + if k - 1 in data then var d := data[k - 1]; Offset(d.value, d.assetBlinder, d.valueBlinder) else 0
  }

  function Opened(outputs: seq<Output>): nat {
    if outputs == [] then 0 else
    Opened(outputs[..|outputs| - 1]) + if outputs[|outputs| - 1].opening.Some? then 1 else 0
  }

  function ToBlind(outputs: seq<Output>): nat {
    if outputs == [] then 0 else
    ToBlind(outputs[..|outputs| - 1]) + if outputs[|outputs| - 1].toBlind then 1 else 0
  }

  ghost predicate AllBlinded(outputs: seq<Output>) {
    forall i :: 0 <= i < |outputs| ==> outputs[i].toBlind ==> outputs[i].opening.Some?
  }

  lemma {:induction false} CountsCompare(outputs: seq<Output>)
    requires Sane(outputs)
    ensures Opened(outputs) <= ToBlind(outputs) && (Opened(outputs) == ToBlind(outputs) <==> AllBlinded(outputs))
  {
    if outputs != [] {
      var n := |outputs| - 1;
      CountsCompare(outputs[..n]);
      assert outputs == outputs[..n] + [outputs[n]];
    }
  }

  lemma OpenedNext(outputs: seq<Output>, i: nat)
    requires i < |outputs|
    ensures Opened(outputs[..i + 1]) == Opened(outputs[..i]) + if outputs[i].opening.Some? then 1 else 0
  {
    assert outputs[..i + 1][..i] == outputs[..i];
  }

  /** Replacing one output changes the sums by that output. */
  lemma {:induction false} ChangeOne(outputs: seq<Output>, i: nat, o: Output)
    requires i < |outputs| && o.toBlind == outputs[i].toBlind
    ensures var outputs' := outputs[i := o];
            && OutputSum(outputs') == OutputSum(outputs) - OutputOffset(outputs[i]) + OutputOffset(o)
            && ToBlind(outputs') == ToBlind(outputs)
            && (outputs[i].opening.None? && o.opening.Some? ==> Opened(outputs') == Opened(outputs) + 1)
  {
    var n := |outputs| - 1;
    var outputs' := outputs[i := o];
    hide OutputOffset;
    if i == n {
      assert outputs'[..n] == outputs[..n];
    } else {
      ChangeOne(outputs[..n], i, o);
      assert outputs'[..n] == outputs[..n][i := o];
    }
  }

  // ----- What a party computes -----

  /** The sum of the offsets of the inputs below `k` that a party knows, or None if an addition is refused. */
  function InScalar(n: nat, data: map<nat, InputData>, k: nat): Option<nat>
    requires n > 0
  {
    if k == 0 then Some(0) else
    match InScalar(n, data, k - 1)
    case None => None
    case Some(a) =>
      if k - 1 in data then var d := data[k - 1]; AddedOffset(n, a, d.value, d.assetBlinder, d.valueBlinder) else Some(a)
  }

  lemma {:induction false} InScalarCong(n: nat, data: map<nat, InputData>, k: nat)
    requires n > 0 && InScalar(n, data, k).Some?
    ensures Cong(n, InScalar(n, data, k).value, InputSum(data, k))
  {
    CongRefl(n, 0);
    if k > 0 {
      InScalarCong(n, data, k - 1);
      var a := InScalar(n, data, k - 1).value;
      if k - 1 in data {
        var d := data[k - 1];
        AddedOffsetCong(n, a, d.value, d.assetBlinder, d.valueBlinder);
        hide Cong, AddedOffset, Offset;
        var o := Offset(d.value, d.assetBlinder, d.valueBlinder);
        CongRefl(n, o);
        CongAdd(n, a, InputSum(data, k - 1), o, o);
        CongTrans(n, InScalar(n, data, k).value, a + o, InputSum(data, k));
      }
    }
  }

  lemma {:induction false} InScalarRefused(n: nat, data: map<nat, InputData>, i: nat, k: nat)
    requires n > 0 && InScalar(n, data, i).None? && i <= k
    ensures InScalar(n, data, k).None?
    decreases k
  {
    if i < k {
      InScalarRefused(n, data, i, k - 1);
    }
  }

  method InputScalar(n: nat, inputs: nat, data: map<nat, InputData>) returns (r: Option<nat>)
    requires n > 0
    ensures r == InScalar(n, data, inputs)
    ensures r.Some? ==> Cong(n, r.value, InputSum(data, inputs))
  {
    r := Some(0);
    hide AddedOffset;
    for i := 0 to inputs
      invariant r.Some? && r == InScalar(n, data, i)
    {
      if i in data {
        var d := data[i];
        r := ComputeAndAddToScalarOffset(n, r.value, d.value, d.assetBlinder, d.valueBlinder);
        if r.None? {
          InScalarRefused(n, data, i + 1, inputs);
          return;
        }
      }
    }
    InScalarCong(n, data, inputs);
  }

  /** The output is for the owner of one of these inputs to blind. */
  predicate Due(o: Output, data: map<nat, InputData>) {
    o.toBlind && o.opening.None? && o.blinderIndex.Some? && o.blinderIndex.value in data
  }

  /** The outputs when those due among the first `k` are blinded with the blinders drawn for them. */
  function Drawn(outputs: seq<Output>, p: Party, k: nat): (r: seq<Output>)
    ensures |r| == |outputs|
    ensures forall j :: 0 <= j < |outputs| ==>
      r[j] == if j < k && Due(outputs[j], p.data) then outputs[j].(opening := Some(p.random(j))) else outputs[j]
  {
    seq(|outputs|, j requires 0 <= j < |outputs| =>
      if j < k && Due(outputs[j], p.data) then outputs[j].(opening := Some(p.random(j))) else outputs[j])
  }

  /** The sum of the drawn offsets, or None if an amount is missing or an addition is refused. */
  function OutScalar(n: nat, outputs: seq<Output>, p: Party, k: nat): Option<nat>
    requires n > 0 && k <= |outputs|
  {
    if k == 0 then Some(0) else
    match OutScalar(n, outputs, p, k - 1)
    case None => None
    case Some(a) =>
      var o, r := outputs[k - 1], p.random(k - 1);
      if !Due(o, p.data) then Some(a)
      else if o.amount.None? then None
      else AddedOffset(n, a, o.amount.value, r.assetBlinder, r.valueBlinder)
  }

  lemma DrawnSane(outputs: seq<Output>, p: Party, k: nat)
    requires Sane(outputs)
    ensures Sane(Drawn(outputs, p, k))
  {
  }

  lemma DrawnNext(outputs: seq<Output>, p: Party, k: nat)
    requires k < |outputs|
    ensures Drawn(outputs, p, k)[k] == outputs[k]
    ensures Drawn(outputs, p, k + 1) ==
            if Due(outputs[k], p.data) then Drawn(outputs, p, k)[k := outputs[k].(opening := Some(p.random(k)))]
            else Drawn(outputs, p, k)
  {
    hide Due;
  }

  lemma DrawnStart(outputs: seq<Output>, p: Party)
    ensures Drawn(outputs, p, 0) == outputs
  {
  }

  lemma {:induction false} OutScalarCong(n: nat, outputs: seq<Output>, p: Party, k: nat)
    requires n > 0 && k <= |outputs| && OutScalar(n, outputs, p, k).Some?
    ensures Cong(n, OutScalar(n, outputs, p, k).value, OutputSum(Drawn(outputs, p, k)) - OutputSum(outputs))
  {
    hide Cong, AddedOffset, Offset, OutputSum, Drawn;
    CongRefl(n, 0);
    if k == 0 {
      DrawnStart(outputs, p);
    } else {
      OutScalarCong(n, outputs, p, k - 1);
      DrawnNext(outputs, p, k - 1);
      var o, r, s := outputs[k - 1], p.random(k - 1), Drawn(outputs, p, k - 1);
      if Due(o, p.data) {
        var a := OutScalar(n, outputs, p, k - 1).value;
        ChangeOne(s, k - 1, o.(opening := Some(r)));
        AddedOffsetCong(n, a, o.amount.value, r.assetBlinder, r.valueBlinder);
        var x := Offset(o.amount.value, r.assetBlinder, r.valueBlinder);
        CongRefl(n, x);
        CongAdd(n, a, OutputSum(s) - OutputSum(outputs), x, x);
        CongTrans(n, OutScalar(n, outputs, p, k).value, a + x, OutputSum(s) - OutputSum(outputs) + x);
      }
    }
  }

  /** Whether there is anything for the party to do. */
  ghost predicate HasDue(outputs: seq<Output>, p: Party) {
    exists j :: 0 <= j < |outputs| && Due(outputs[j], p.data)
  }

  /** The last output due among the first `k`. */
  ghost function LastDue(outputs: seq<Output>, p: Party, k: nat): (l: int)
    requires k <= |outputs|
    ensures -1 <= l < k
    ensures l >= 0 ==> Due(outputs[l], p.data)
    ensures forall j :: l < j < k ==> !Due(outputs[j], p.data)
  {
    if k == 0 then -1 else if Due(outputs[k - 1], p.data) then k - 1 else LastDue(outputs, p, k - 1)
  }

  /**
   The transaction after the party went through the first `k` outputs, or None if that fails.  If
   no output is left to blind, the last one gets the balancing blinder and the offsets are settled.
   */
  ghost function Through(n: nat, b: Stage, p: Party, inputScalar: nat, k: nat): Option<Stage>
    requires n > 0 && k <= |b.outputs|
  {
    var out, drawn, l := OutScalar(n, b.outputs, p, k), Drawn(b.outputs, p, k), LastDue(b.outputs, p, k);
    if out.None? then None
    else if !AllBlinded(drawn) || l < 0 then Some(Stage(drawn, b.offsets))
    else
      var r := LastValue(n, p.random(l).valueBlinder, out.value, inputScalar, b.offsets);
      if r.None? || r.value == 0 then None
      else Some(Stage(drawn[l := drawn[l].(opening := Some(p.random(l).(valueBlinder := r.value)))], {}))
  }

  /** What a party's call makes of the transaction, or None if it fails. */
  ghost function CallResult(n: nat, inputs: nat, p: Party, b: Stage): Option<Stage>
    requires n > 0
  {
    if AllBlinded(b.outputs) then Some(b) else
    var inp := InScalar(n, p.data, inputs);
    if inp.None? then None else
    var m := |b.outputs|;
    var f, out := Through(n, b, p, inp.value, m), OutScalar(n, b.outputs, p, m);
    if f.None? || AllBlinded(f.value.outputs) then f
    else if out.value == 0 then (if |p.data| > 0 && Opened(f.value.outputs) == 0 then None else f)
    else
      match Difference(n, out.value, inp.value)
      case None => None
      case Some(x) => Some(f.value.(offsets := b.offsets + {x}))
  }

  lemma ThroughSkips(n: nat, b: Stage, p: Party, inputScalar: nat, k: nat)
    requires n > 0 && k < |b.outputs| && !Due(b.outputs[k], p.data)
    ensures Through(n, b, p, inputScalar, k + 1) == Through(n, b, p, inputScalar, k)
    ensures OutScalar(n, b.outputs, p, k + 1) == OutScalar(n, b.outputs, p, k)
    ensures Drawn(b.outputs, p, k + 1) == Drawn(b.outputs, p, k)
  {
    DrawnNext(b.outputs, p, k);
    hide Drawn, LastValue, AllBlinded, Due;
  }

  /** What the next output to blind needs. */
  lemma ThroughDraws(n: nat, b: Stage, p: Party, inputScalar: nat, k: nat)
    requires n > 0 && k < |b.outputs| && Due(b.outputs[k], p.data) && OutScalar(n, b.outputs, p, k).Some? && Sane(b.outputs)
    ensures var drawn := Drawn(b.outputs, p, k);
            && Through(n, b, p, inputScalar, k) == Some(Stage(drawn, b.offsets)) && drawn[k] == b.outputs[k]
            && Sane(drawn) && !AllBlinded(drawn)
            && (Opened(drawn) + 1 == ToBlind(drawn) <==> AllBlinded(Drawn(b.outputs, p, k + 1)))
  {
    var drawn, next := Drawn(b.outputs, p, k), Drawn(b.outputs, p, k + 1);
    DrawnNext(b.outputs, p, k);
    DrawnSane(b.outputs, p, k);
    DrawnSane(b.outputs, p, k + 1);
    CountsCompare(next);
    ChangeOne(drawn, k, b.outputs[k].(opening := Some(p.random(k))));
    assert drawn[k].toBlind && drawn[k].opening.None?;
  }

  lemma LastDueHere(outputs: seq<Output>, p: Party, k: nat)
    requires k < |outputs| && Due(outputs[k], p.data)
    ensures LastDue(outputs, p, k + 1) == k
  {
  }

  lemma UpdateTwice(s: seq<Output>, k: nat, x: Output, y: Output)
    requires k < |s|
    ensures s[k := x][k := y] == s[k := y] && s[k := x][k] == x
  {
  }

  lemma OutScalarNext(n: nat, outputs: seq<Output>, p: Party, k: nat)
    requires n > 0 && k < |outputs| && Due(outputs[k], p.data) && OutScalar(n, outputs, p, k).Some?
    ensures OutScalar(n, outputs, p, k + 1) ==
            if outputs[k].amount.None? then None
            else AddedOffset(n, OutScalar(n, outputs, p, k).value, outputs[k].amount.value,
                             p.random(k).assetBlinder, p.random(k).valueBlinder)
  {
  }

  /** The stage when the last of the first `k` outputs is due. */
  ghost function Blinded(n: nat, b: Stage, p: Party, inputScalar: nat, k: nat, sum: Option<nat>): Option<Stage>
    requires n > 0 && k < |b.outputs|
  {
    var o, random, drawn := b.outputs[k], p.random(k), Drawn(b.outputs, p, k);
    if sum.None? then None
    else if !AllBlinded(Drawn(b.outputs, p, k + 1)) then Some(Stage(drawn[k := o.(opening := Some(random))], b.offsets))
    else
      var r := LastValue(n, random.valueBlinder, sum.value, inputScalar, b.offsets);
      if r.None? || r.value == 0 then None
      else Some(Stage(drawn[k := o.(opening := Some(random.(valueBlinder := r.value)))], {}))
  }

  lemma ThroughNext(n: nat, b: Stage, p: Party, inputScalar: nat, k: nat)
    requires n > 0 && k < |b.outputs| && Due(b.outputs[k], p.data)
    ensures Through(n, b, p, inputScalar, k + 1) == Blinded(n, b, p, inputScalar, k, OutScalar(n, b.outputs, p, k + 1))
  {
    hide Drawn, LastValue, AllBlinded, AddedOffset, Due, OutScalar, LastDue;
    DrawnNext(b.outputs, p, k);
    LastDueHere(b.outputs, p, k);
    var sum := OutScalar(n, b.outputs, p, k + 1);
    if sum.Some? {
      var r := LastValue(n, p.random(k).valueBlinder, sum.value, inputScalar, b.offsets);
      if r.Some? {
        UpdateTwice(Drawn(b.outputs, p, k), k, b.outputs[k].(opening := Some(p.random(k))),
                    b.outputs[k].(opening := Some(p.random(k).(valueBlinder := r.value))));
      }
    }
  }

  /** Once nothing is left to blind nothing is due. */
  lemma NotDueAfter(outputs: seq<Output>, p: Party, k: nat)
    requires k < |outputs| && AllBlinded(Drawn(outputs, p, k))
    ensures !Due(outputs[k], p.data)
  {
    assert Drawn(outputs, p, k)[k] == outputs[k];
  }

  /** A failure is final. */
  lemma {:induction false} ThroughFails(n: nat, b: Stage, p: Party, inputScalar: nat, i: nat, k: nat)
    requires n > 0 && i <= k <= |b.outputs| && Through(n, b, p, inputScalar, i).None? && Sane(b.outputs)
    ensures Through(n, b, p, inputScalar, k).None?
    decreases k
  {
    if i < k {
      ThroughFails(n, b, p, inputScalar, i, k - 1);
      hide Drawn, LastValue, AllBlinded, AddedOffset, LastDue;
      if OutScalar(n, b.outputs, p, k - 1).Some? {
        NotDueAfter(b.outputs, p, k - 1);
        ThroughSkips(n, b, p, inputScalar, k - 1);
      }
    }
  }

  lemma ThroughStarts(n: nat, b: Stage, p: Party, inputScalar: nat)
    requires n > 0 && !AllBlinded(b.outputs)
    ensures Through(n, b, p, inputScalar, 0) == Some(b) && OutScalar(n, b.outputs, p, 0) == Some(0)
    ensures Drawn(b.outputs, p, 0) == b.outputs
  {
    DrawnStart(b.outputs, p);
  }

  class Psbt {
    const n: nat
    var outputs: seq<Output>
    var offsets: set<nat>

    ghost predicate Valid()
      reads this
    {
      n > 0 && Sane(outputs)
    }

    constructor (n: nat, outputs: seq<Output>)
      requires n > 0 && forall i :: 0 <= i < |outputs| ==> outputs[i].opening.None?
      ensures Valid() && this.n == n && State() == Stage(outputs, {})
    {
      this.n, this.outputs, this.offsets := n, outputs, {};
    }

    ghost function State(): Stage
      reads this
    {
      Stage(outputs, offsets)
    }

    /** One party blinds the outputs that are assigned to its inputs, with the blinders it draws. */
    method BlindPsbt(inputs: nat, p: Party) returns (status: Status)
      requires Valid()
      modifies this`outputs, this`offsets
      ensures Valid()
      ensures status.Ok? <==> CallResult(n, inputs, p, old(State())).Some?
      ensures status.Ok? ==> State() == CallResult(n, inputs, p, old(State())).value
      ensures status.NoBlindOutputs? ==> |p.data| > 0 && Opened(outputs) == 0 && State() == old(State())
    {
      hide Cong, Sane, SumSet, InputSum, Opened, ToBlind, AllBlinded, Drawn, OutScalar, InScalar, Through, Difference, HasDue;
      ghost var b := State();
      var numBlinded, toBlind := Opened(outputs), ToBlind(outputs);
      CountsCompare(outputs);
      if numBlinded == toBlind {
        return Ok;
      }
      var inputScalar := InputScalar(n, inputs, p.data);
      if inputScalar.None? {
        return ScalarUnable;
      }
      var outputScalar, didLast, ourBlinds;
      status, outputScalar, didLast, ourBlinds := BlindOutputs(p, inputScalar.value);
      if !status.Ok? {
        return;
      }
      ThroughMeans(n, b, p, inputScalar.value, outputScalar, didLast);
      if !didLast && outputScalar != 0 {
        var x := SubtractScalars(n, outputScalar, inputScalar.value);
        if x.None? {
          return ScalarUnable;
        }
        offsets := offsets + {x.value};
      }
      if |p.data| > 0 && ourBlinds == 0 {
        return NoBlindOutputs;
      }
    }

    /** The loop over the outputs. */
    method BlindOutputs(p: Party, inputScalar: nat)
      returns (status: Status, outputScalar: nat, didLast: bool, ourBlinds: nat)
      requires Valid() && !AllBlinded(outputs)
      modifies this`outputs, this`offsets
      ensures Valid() && !status.NoBlindOutputs?
      ensures status.Ok? <==> Through(n, old(State()), p, inputScalar, |old(outputs)|).Some?
      ensures status.Ok? ==>
        && Through(n, old(State()), p, inputScalar, |old(outputs)|) == Some(State())
        && OutScalar(n, old(outputs), p, |old(outputs)|) == Some(outputScalar)
        && didLast == AllBlinded(Drawn(old(outputs), p, |old(outputs)|)) && ourBlinds == Opened(outputs)
    {
      hide Cong, Sane, SumSet, Opened, ToBlind, AllBlinded, Drawn, OutScalar, Through, LastValue, AddedOffset;
      ghost var b := State();
      status, outputScalar, didLast, ourBlinds := Ok, 0, false, 0;
      var toBlind := ToBlind(outputs);
      ThroughStarts(n, b, p, inputScalar);
      OpenedStarts(outputs);
      for i := 0 to |outputs|
        invariant |outputs| == |b.outputs| && toBlind == ToBlind(outputs) && Sane(outputs) && status.Ok?
        invariant forall j :: i <= j < |outputs| ==> outputs[j] == b.outputs[j]
        invariant Through(n, b, p, inputScalar, i) == Some(State()) && OutScalar(n, b.outputs, p, i) == Some(outputScalar)
        invariant didLast == AllBlinded(Drawn(b.outputs, p, i)) && ourBlinds == Opened(outputs[..i])
      {
        var output := outputs[i];
        ghost var front := outputs[..i];
        OpenedIsToBlind(outputs, i);
        if output.toBlind && output.opening.Some? {
          ourBlinds := ourBlinds + 1;
          ThroughSkips(n, b, p, inputScalar, i);
        } else if output.toBlind && output.blinderIndex.Some? && output.blinderIndex.value in p.data {
          ThroughDraws(n, b, p, inputScalar, i);
          ThroughNext(n, b, p, inputScalar, i);
          OutScalarNext(n, b.outputs, p, i);
          status, outputScalar, didLast := BlindOne(i, p.random(i), outputScalar, inputScalar, toBlind);
          if !status.Ok? {
            ThroughFails(n, b, p, inputScalar, i + 1, |b.outputs|);
            return;
          }
          ourBlinds := ourBlinds + 1;
        } else {
          ThroughSkips(n, b, p, inputScalar, i);
        }
        assert outputs[..i] == front;
        OpenedNext(outputs, i);
      }
      assert outputs[..|outputs|] == outputs;
    }

    /** Blind one output; the last one settles the account. */
    method BlindOne(i: nat, random: Opening, scalar: nat, inputScalar: nat, toBlind: nat)
      returns (status: Status, outputScalar: nat, didLast: bool)
      requires n > 0 && i < |outputs| && outputs[i].toBlind && outputs[i].opening.None? && toBlind == ToBlind(outputs)
      requires Sane(outputs)
      modifies this`outputs, this`offsets
      ensures Sane(outputs) && toBlind == ToBlind(outputs)
      ensures didLast ==> old(Opened(outputs)) + 1 == toBlind
      ensures status == OneStatus(n, old(outputs[i]), random, scalar, inputScalar, old(offsets), old(Opened(outputs)) + 1 == toBlind)
      ensures !status.Ok? ==> State() == old(State())
      ensures status.Ok? ==>
        && old(outputs[i]).amount.Some?
        && var o := old(outputs[i]);
           var sum := AddedOffset(n, scalar, o.amount.value, random.assetBlinder, random.valueBlinder);
           && sum == Some(outputScalar) && didLast == (old(Opened(outputs)) + 1 == toBlind)
           && if !didLast then State() == Stage(old(outputs)[i := o.(opening := Some(random))], old(offsets))
              else var r := LastValue(n, random.valueBlinder, outputScalar, inputScalar, old(offsets));
                   r.Some? && State() == Stage(old(outputs)[i := o.(opening := Some(random.(valueBlinder := r.value)))], {})
    {
      hide Cong, Sane, SumSet, OutputSum, Opened, ToBlind, AddedOffset, LastValue;
      var output, o := outputs[i], random;
      outputScalar, didLast := scalar, false;
      if output.amount.None? {
        return InvalidBlinder, outputScalar, didLast;
      }
      var sum := ComputeAndAddToScalarOffset(n, scalar, output.amount.value, o.assetBlinder, o.valueBlinder);
      if sum.None? {
        return ScalarUnable, outputScalar, didLast;
      }
      outputScalar := sum.value;
      if Opened(outputs) + 1 == toBlind {
        didLast := true;
        var r := LastBlinder(n, o.valueBlinder, outputScalar, inputScalar, offsets);
        if r.None? {
          return ScalarUnable, outputScalar, didLast;
        }
        if r.value == 0 {
          return InvalidBlinder, outputScalar, didLast;
        }
        o := o.(valueBlinder := r.value);
        offsets := {};
      }
      ChangeOne(outputs, i, output.(opening := Some(o)));
      OpenKeeps(outputs, i, o);
      outputs := outputs[i := output.(opening := Some(o))];
      status := Ok;
    }
  }

  /** How blinding one output ends. */
  ghost function OneStatus(n: nat, o: Output, random: Opening, scalar: nat, inputScalar: nat, offsets: set<nat>, last: bool): Status
    requires n > 0
  {
    if o.amount.None? then InvalidBlinder else
    var sum := AddedOffset(n, scalar, o.amount.value, random.assetBlinder, random.valueBlinder);
    if sum.None? then ScalarUnable
    else if !last then Ok
    else
      var r := LastValue(n, random.valueBlinder, sum.value, inputScalar, offsets);
      if r.None? then ScalarUnable else if r.value == 0 then InvalidBlinder else Ok
  }

  lemma OpenedStarts(outputs: seq<Output>)
    ensures Opened(outputs[..0]) == 0
  {
  }

  lemma OpenedIsToBlind(outputs: seq<Output>, i: nat)
    requires Sane(outputs) && i < |outputs|
    ensures outputs[i].opening.Some? ==> outputs[i].toBlind
  {
  }

  lemma OpenKeeps(outputs: seq<Output>, i: nat, o: Opening)
    requires Sane(outputs) && i < |outputs| && outputs[i].toBlind
    ensures Sane(outputs[i := outputs[i].(opening := Some(o))])
  {
  }

  lemma SomethingDue(outputs: seq<Output>, p: Party)
    requires !AllBlinded(outputs) && AllBlinded(Drawn(outputs, p, |outputs|))
    ensures HasDue(outputs, p) && LastDue(outputs, p, |outputs|) >= 0
  {
    var j :| 0 <= j < |outputs| && outputs[j].toBlind && outputs[j].opening.None?;
    assert Drawn(outputs, p, |outputs|)[j].opening.Some?;
    assert Due(outputs[j], p.data);
  }

  /** The stage after the loop if nothing is left to blind. */
  lemma ThroughLast(n: nat, b: Stage, p: Party, inputScalar: nat, out: nat)
    requires n > 0 && !AllBlinded(b.outputs) && AllBlinded(Drawn(b.outputs, p, |b.outputs|))
    requires OutScalar(n, b.outputs, p, |b.outputs|) == Some(out) && Through(n, b, p, inputScalar, |b.outputs|).Some?
    ensures var m, drawn, l := |b.outputs|, Drawn(b.outputs, p, |b.outputs|), LastDue(b.outputs, p, |b.outputs|);
            && l >= 0 && drawn[l] == b.outputs[l].(opening := Some(p.random(l)))
            && var r := LastValue(n, p.random(l).valueBlinder, out, inputScalar, b.offsets);
               && r.Some? && Through(n, b, p, inputScalar, m) ==
                  Some(Stage(drawn[l := drawn[l].(opening := Some(p.random(l).(valueBlinder := r.value)))], {}))
  {
    SomethingDue(b.outputs, p);
    hide LastValue, OutScalar, AllBlinded;
  }

  /** What the stage after the loop is. */
  lemma ThroughMeans(n: nat, b: Stage, p: Party, inputScalar: nat, outputScalar: nat, didLast: bool)
    requires n > 0 && !AllBlinded(b.outputs) && Sane(b.outputs)
    requires OutScalar(n, b.outputs, p, |b.outputs|) == Some(outputScalar)
    requires Through(n, b, p, inputScalar, |b.outputs|).Some?
    requires didLast == AllBlinded(Drawn(b.outputs, p, |b.outputs|))
    ensures var f := Through(n, b, p, inputScalar, |b.outputs|).value;
            && Sane(f.outputs) && (AllBlinded(f.outputs) <==> didLast)
            && (didLast ==> f.offsets == {} && HasDue(b.outputs, p) && Opened(f.outputs) > 0)
            && (!didLast ==> f == Stage(Drawn(b.outputs, p, |b.outputs|), b.offsets))
            && (Opened(f.outputs) == 0 ==> f == b && outputScalar == 0)
  {
    var m := |b.outputs|;
    var drawn := Drawn(b.outputs, p, m);
    DrawnSane(b.outputs, p, m);
    hide OutScalar, LastValue;
    if didLast {
      SomethingDue(b.outputs, p);
      ThroughLast(n, b, p, inputScalar, outputScalar);
      hide Through, Drawn;
      var f, l := Through(n, b, p, inputScalar, m).value, LastDue(b.outputs, p, m);
      StillBlinded(drawn, l, f.outputs[l]);
      OpenedSome(f.outputs, l);
    } else if Opened(drawn) == 0 {
      AllClosed(drawn);
      NothingDrawn(n, b.outputs, p);
    }
  }

  lemma StillBlinded(outputs: seq<Output>, l: nat, o: Output)
    requires l < |outputs| && Sane(outputs) && AllBlinded(outputs) && o.opening.Some? && o.toBlind
    ensures Sane(outputs[l := o]) && AllBlinded(outputs[l := o])
  {
  }

  lemma {:induction false} AllClosed(outputs: seq<Output>)
    requires Opened(outputs) == 0
    ensures forall j :: 0 <= j < |outputs| ==> outputs[j].opening.None?
  {
    if outputs != [] {
      AllClosed(outputs[..|outputs| - 1]);
    }
  }

  lemma NothingDrawn(n: nat, outputs: seq<Output>, p: Party)
    requires n > 0 && forall j :: 0 <= j < |outputs| ==> Drawn(outputs, p, |outputs|)[j].opening.None?
    ensures OutScalar(n, outputs, p, |outputs|) == Some(0) && Drawn(outputs, p, |outputs|) == outputs
  {
    forall j | 0 <= j < |outputs| ensures !Due(outputs[j], p.data) {
      assert Drawn(outputs, p, |outputs|)[j].opening.None?;
    }
    NothingDue(n, outputs, p, |outputs|);
  }

  lemma {:induction false} OpenedSome(outputs: seq<Output>, i: nat)
    requires i < |outputs| && outputs[i].opening.Some?
    ensures Opened(outputs) > 0
  {
    if i < |outputs| - 1 {
      OpenedSome(outputs[..|outputs| - 1], i);
    }
  }

  lemma {:induction false} NothingDue(n: nat, outputs: seq<Output>, p: Party, k: nat)
    requires n > 0 && k <= |outputs| && forall j :: 0 <= j < k ==> !Due(outputs[j], p.data)
    ensures OutScalar(n, outputs, p, k) == Some(0) && Drawn(outputs, p, k) == outputs
  {
    if k > 0 {
      NothingDue(n, outputs, p, k - 1);
    }
  }

  // ----- The balance of one call -----

  /** What the blinded outputs add up to, less the offsets that are passed on. */
  ghost function Net(s: Stage): int {
    OutputSum(s.outputs) - SumSet(s.offsets)
  }

  /** The sum of the offsets that the party draws. */
  ghost function DrawnSum(b: Stage, p: Party): int {
    OutputSum(Drawn(b.outputs, p, |b.outputs|)) - OutputSum(b.outputs)
  }

  /** Before the call: whether it will leave nothing to blind. */
  ghost predicate Completes(b: Stage, p: Party) {
    AllBlinded(Drawn(b.outputs, p, |b.outputs|))
  }

  /** Before the call: the party has an offset to pass on, and it is not among those passed on already. */
  ghost predicate PassesOn(n: nat, inputs: nat, b: Stage, p: Party)
    requires n > 0
  {
    var out, inp := OutScalar(n, b.outputs, p, |b.outputs|), InScalar(n, p.data, inputs);
    && out.Some? && inp.Some? && out.value != 0
    && var x := Difference(n, out.value, inp.value); x.Some? && x.value !in b.offsets
  }

  /** Before the call: the imbalance that it will drop. */
  ghost function Loss(n: nat, inputs: nat, b: Stage, p: Party): int
    requires n > 0
  {
    if !HasDue(b.outputs, p) || Completes(b, p) || PassesOn(n, inputs, b, p) then 0
    else DrawnSum(b, p) - InputSum(p.data, inputs)
  }

  /** The inputs of a party count if it has an output to blind. */
  ghost function Brought(inputs: nat, b: Stage, p: Party): int {
    if HasDue(b.outputs, p) then InputSum(p.data, inputs) else 0
  }

  /** A party that finds nothing to blind changes nothing. */
  lemma CallWithoutDue(n: nat, inputs: nat, p: Party, b: Stage)
    requires n > 0 && Sane(b.outputs) && !HasDue(b.outputs, p) && CallResult(n, inputs, p, b).Some?
    ensures CallResult(n, inputs, p, b).value == b
  {
    if !AllBlinded(b.outputs) {
      NothingDue(n, b.outputs, p, |b.outputs|);
    }
  }

  /** The arithmetic of the last output. */
  lemma LastAdds(n: nat, out: int, d: int, inp: int, inputSum: int, r: int, vb: int, s: int)
    requires n > 0 && Cong(n, out, d) && Cong(n, inp, inputSum) && Cong(n, r, vb - (out - inp) - s)
    ensures Cong(n, d - vb + r, inputSum - s)
  {
    CongSwap(n, out, d);
    CongRefl(n, d - vb);
    CongRefl(n, inputSum - s);
    hide Cong;
    CongAdd(n, d - vb, d - vb, r, vb - (out - inp) - s);
    CongRefl(n, inp - s - out);
    CongAdd(n, d, out, inp - s - out, inp - s - out);
    CongRefl(n, s);
    CongAdd(n, inp, inputSum, s, s);
    CongTrans(n, d - out + inp - s, inp - s, inputSum - s);
    CongTrans(n, d - vb + r, d - out + inp - s, inputSum - s);
  }

  /** The parts of a successful call that has something to do. */
  lemma CallParts(n: nat, inputs: nat, p: Party, b: Stage)
    requires n > 0 && !AllBlinded(b.outputs) && CallResult(n, inputs, p, b).Some?
    ensures InScalar(n, p.data, inputs).Some? && OutScalar(n, b.outputs, p, |b.outputs|).Some?
    ensures Through(n, b, p, InScalar(n, p.data, inputs).value, |b.outputs|).Some?
    ensures var f := Through(n, b, p, InScalar(n, p.data, inputs).value, |b.outputs|).value;
            var out := OutScalar(n, b.outputs, p, |b.outputs|).value;
            if AllBlinded(f.outputs) || out == 0 then CallResult(n, inputs, p, b) == Some(f)
            else var x := Difference(n, out, InScalar(n, p.data, inputs).value);
                 x.Some? && CallResult(n, inputs, p, b) == Some(f.(offsets := b.offsets + {x.value}))
  {
    hide InScalar, OutScalar, Difference, AllBlinded, Drawn, LastValue, LastDue, Opened;
  }

  /** The transaction after a call that leaves nothing to blind. */
  lemma CompletingParts(n: nat, inputs: nat, p: Party, b: Stage) returns (l: nat, r: nat, out: nat, inp: nat)
    requires n > 0 && Sane(b.outputs) && !AllBlinded(b.outputs) && CallResult(n, inputs, p, b).Some? && Completes(b, p)
    ensures var a, drawn := CallResult(n, inputs, p, b).value, Drawn(b.outputs, p, |b.outputs|);
            && l < |drawn| && drawn[l].amount.Some? && drawn[l].opening == Some(p.random(l))
            && a == Stage(drawn[l := drawn[l].(opening := Some(p.random(l).(valueBlinder := r)))], {})
            && AllBlinded(a.outputs) && HasDue(b.outputs, p)
    ensures InScalar(n, p.data, inputs) == Some(inp) && OutScalar(n, b.outputs, p, |b.outputs|) == Some(out)
    ensures LastValue(n, p.random(l).valueBlinder, out, inp, b.offsets) == Some(r)
  {
    CallParts(n, inputs, p, b);
    inp, out := InScalar(n, p.data, inputs).value, OutScalar(n, b.outputs, p, |b.outputs|).value;
    hide InScalar, OutScalar, LastValue, AllBlinded, HasDue, Through, CallResult, Drawn, Difference, Due, Opened, Sane;
    ThroughMeans(n, b, p, inp, out, true);
    ThroughLast(n, b, p, inp, out);
    l := LastDue(b.outputs, p, |b.outputs|);
    r := LastValue(n, p.random(l).valueBlinder, out, inp, b.offsets).value;
    AmountGiven(n, b.outputs, p, l, |b.outputs|);
  }

  /** A call that leaves nothing to blind settles the account. */
  lemma CompletingCall(n: nat, inputs: nat, p: Party, b: Stage)
    requires n > 0 && Sane(b.outputs) && !AllBlinded(b.outputs) && CallResult(n, inputs, p, b).Some? && Completes(b, p)
    ensures var a := CallResult(n, inputs, p, b).value;
            && a.offsets == {} && AllBlinded(a.outputs) && HasDue(b.outputs, p)
            && Cong(n, OutputSum(a.outputs) - OutputSum(b.outputs), InputSum(p.data, inputs) - SumSet(b.offsets))
  {
    hide *;
    var l, r, out, inp := CompletingParts(n, inputs, p, b);
    InScalarCong(n, p.data, inputs);
    OutScalarCong(n, b.outputs, p, |b.outputs|);
    LastValueCong(n, p.random(l).valueBlinder, out, inp, b.offsets);
    var d := OutputSum(Drawn(b.outputs, p, |b.outputs|)) - OutputSum(b.outputs);
    ReblindOne(Drawn(b.outputs, p, |b.outputs|), l, p.random(l), r);
    LastAdds(n, out, d, inp, InputSum(p.data, inputs), r, p.random(l).valueBlinder, SumSet(b.offsets));
  }

  lemma ReblindOne(outputs: seq<Output>, l: nat, o: Opening, r: nat)
    requires l < |outputs| && outputs[l].amount.Some? && outputs[l].opening == Some(o)
    ensures OutputSum(outputs[l := outputs[l].(opening := Some(o.(valueBlinder := r)))]) == OutputSum(outputs) - o.valueBlinder + r
  {
    ChangeOne(outputs, l, outputs[l].(opening := Some(o.(valueBlinder := r))));
    hide OutputSum;
  }

  lemma {:induction false} AmountGiven(n: nat, outputs: seq<Output>, p: Party, j: nat, k: nat)
    requires n > 0 && j < k <= |outputs| && Due(outputs[j], p.data) && OutScalar(n, outputs, p, k).Some?
    ensures outputs[j].amount.Some?
  {
    if j < k - 1 {
      AmountGiven(n, outputs, p, j, k - 1);
    }
  }

  /** The transaction after a call that leaves something to blind. */
  lemma PartialParts(n: nat, inputs: nat, p: Party, b: Stage)
    requires n > 0 && Sane(b.outputs) && !AllBlinded(b.outputs) && CallResult(n, inputs, p, b).Some? && !Completes(b, p)
    ensures InScalar(n, p.data, inputs).Some? && OutScalar(n, b.outputs, p, |b.outputs|).Some?
    ensures var a := CallResult(n, inputs, p, b).value;
            var out, inp := OutScalar(n, b.outputs, p, |b.outputs|).value, InScalar(n, p.data, inputs).value;
            && a.outputs == Drawn(b.outputs, p, |b.outputs|) && !AllBlinded(a.outputs)
            && if PassesOn(n, inputs, b, p)
               then var x := Difference(n, out, inp); x.Some? && x.value !in b.offsets && a.offsets == b.offsets + {x.value}
               else a.offsets == b.offsets
  {
    CallParts(n, inputs, p, b);
    var inp, out := InScalar(n, p.data, inputs).value, OutScalar(n, b.outputs, p, |b.outputs|).value;
    hide InScalar, OutScalar, AllBlinded, Through, CallResult, Drawn, Difference, Opened, Sane;
    ThroughMeans(n, b, p, inp, out, false);
  }

  /** A call that leaves something to blind passes on its imbalance, or drops it. */
  lemma PartialCall(n: nat, inputs: nat, p: Party, b: Stage)
    requires n > 0 && Sane(b.outputs) && !AllBlinded(b.outputs) && CallResult(n, inputs, p, b).Some? && !Completes(b, p)
    requires HasDue(b.outputs, p)
    ensures var a := CallResult(n, inputs, p, b).value;
            && !AllBlinded(a.outputs)
            && Cong(n, Net(a) - Net(b), InputSum(p.data, inputs) + Loss(n, inputs, b, p))
  {
    hide Cong, OutputSum, SumSet, InScalar, OutScalar, InputSum, AllBlinded, HasDue, CallResult, Drawn, Difference, Sane, PassesOn,
         Completes;
    PartialParts(n, inputs, p, b);
    var m := |b.outputs|;
    var a := CallResult(n, inputs, p, b).value;
    var inp, out, d := InScalar(n, p.data, inputs).value, OutScalar(n, b.outputs, p, m).value, DrawnSum(b, p);
    if PassesOn(n, inputs, b, p) {
      var x := Difference(n, out, inp).value;
      DifferenceCong(n, out, inp);
      InScalarCong(n, p.data, inputs);
      OutScalarCong(n, b.outputs, p, m);
      SumSetWithout(a.offsets, x);
      assert a.offsets - {x} == b.offsets;
      PassedArith(n, out, d, inp, InputSum(p.data, inputs), x);
    } else {
      CongRefl(n, d);
    }
  }

  lemma PassedArith(n: nat, out: int, d: int, inp: int, inputSum: int, x: int)
    requires n > 0 && Cong(n, out, d) && Cong(n, inp, inputSum) && Cong(n, x, out - inp)
    ensures Cong(n, d - x, inputSum)
  {
    CongRefl(n, d);
    hide Cong;
    CongAdd(n, out, d, inp, inputSum);
    CongTrans(n, x, out - inp, d - inputSum);
    CongAdd(n, d, d, x, d - inputSum);
  }

  lemma DueIsOpen(outputs: seq<Output>, p: Party)
    requires HasDue(outputs, p)
    ensures !AllBlinded(outputs)
  {
  }

  lemma CallSane(n: nat, inputs: nat, p: Party, b: Stage)
    requires n > 0 && Sane(b.outputs) && CallResult(n, inputs, p, b).Some?
    ensures Sane(CallResult(n, inputs, p, b).value.outputs)
  {
    if !AllBlinded(b.outputs) {
      CallParts(n, inputs, p, b);
      var m := |b.outputs|;
      hide InScalar, OutScalar, AllBlinded, Through, CallResult, Drawn, Difference, Sane;
      ThroughMeans(n, b, p, InScalar(n, p.data, inputs).value, OutScalar(n, b.outputs, p, m).value,
                   AllBlinded(Drawn(b.outputs, p, m)));
    }
  }

  /** Outputs less passed-on offsets grow by what the party brings in and what the call drops. */
  lemma CallBalances(n: nat, inputs: nat, p: Party, b: Stage)
    requires n > 0 && Sane(b.outputs) && CallResult(n, inputs, p, b).Some?
    requires AllBlinded(b.outputs) ==> b.offsets == {}
    ensures var a := CallResult(n, inputs, p, b).value;
            && Sane(a.outputs) && (AllBlinded(a.outputs) ==> a.offsets == {})
            && Cong(n, Net(a) - Net(b), Brought(inputs, b, p) + Loss(n, inputs, b, p))
  {
    hide Cong, OutputSum, SumSet, InputSum, CallResult, Drawn, PassesOn, Sane, AllBlinded, HasDue, Completes;
    var a := CallResult(n, inputs, p, b).value;
    CallSane(n, inputs, p, b);
    SumSetEmpty();
    if !HasDue(b.outputs, p) {
      CallWithoutDue(n, inputs, p, b);
      CongRefl(n, 0);
      return;
    }
    DueIsOpen(b.outputs, p);
    if Completes(b, p) {
      CompletingCall(n, inputs, p, b);
      CongRefl(n, SumSet(b.offsets));
      CongAdd(n, OutputSum(a.outputs) - OutputSum(b.outputs), InputSum(p.data, inputs) - SumSet(b.offsets),
              SumSet(b.offsets), SumSet(b.offsets));
    } else {
      PartialCall(n, inputs, p, b);
    }
  }

  // ----- Several parties -----

  /** The transaction after the first `k` parties, or None if one of them fails. */
  ghost function StageAt(n: nat, inputs: nat, outputs: seq<Output>, parties: seq<Party>, k: nat): Option<Stage>
    requires n > 0 && k <= |parties|
  {
    if k == 0 then Some(Stage(outputs, {})) else
    match StageAt(n, inputs, outputs, parties, k - 1)
    case None => None
    case Some(b) => CallResult(n, inputs, parties[k - 1], b)
  }

  /** What the first `k` calls drop, each judged by the transaction it starts from. */
  ghost function Losses(n: nat, inputs: nat, outputs: seq<Output>, parties: seq<Party>, k: nat): int
    requires n > 0 && k <= |parties|
  {
    if k == 0 then 0 else
    Losses(n, inputs, outputs, parties, k - 1) +
    match StageAt(n, inputs, outputs, parties, k - 1)
    case None => 0
    case Some(b) => Loss(n, inputs, b, parties[k - 1])
  }

  ghost function BroughtBy(n: nat, inputs: nat, outputs: seq<Output>, parties: seq<Party>, k: nat): int
    requires n > 0 && k <= |parties|
  {
    if k == 0 then 0 else
    BroughtBy(n, inputs, outputs, parties, k - 1) +
    match StageAt(n, inputs, outputs, parties, k - 1)
    case None => 0
    case Some(b) => Brought(inputs, b, parties[k - 1])
  }

  ghost predicate Fresh(outputs: seq<Output>) {
    forall i :: 0 <= i < |outputs| ==> outputs[i].opening.None?
  }

  lemma {:induction false} NetStarts(outputs: seq<Output>)
    requires Fresh(outputs)
    ensures OutputSum(outputs) == 0
  {
    if outputs != [] {
      NetStarts(outputs[..|outputs| - 1]);
    }
  }

  lemma {:induction false} JointBalances(n: nat, inputs: nat, outputs: seq<Output>, parties: seq<Party>, k: nat)
    requires n > 0 && k <= |parties| && Fresh(outputs) && StageAt(n, inputs, outputs, parties, k).Some?
    ensures Balanced(n, inputs, outputs, parties, k, StageAt(n, inputs, outputs, parties, k).value)
  {
    hide Fresh, Balanced, CallResult;
    if k == 0 {
      JointStarts(n, inputs, outputs, parties);
    } else {
      JointBalances(n, inputs, outputs, parties, k - 1);
      JointStep(n, inputs, outputs, parties, k - 1, StageAt(n, inputs, outputs, parties, k - 1).value);
    }
  }

  /** The net sum after `k` parties is what they brought in and what they lost. */
  ghost predicate Balanced(n: nat, inputs: nat, outputs: seq<Output>, parties: seq<Party>, k: nat, s: Stage)
    requires n > 0 && k <= |parties|
  {
    && Sane(s.outputs) && (AllBlinded(s.outputs) ==> s.offsets == {})
    && Cong(n, Net(s), BroughtBy(n, inputs, outputs, parties, k) + Losses(n, inputs, outputs, parties, k))
  }

  lemma JointStarts(n: nat, inputs: nat, outputs: seq<Output>, parties: seq<Party>)
    requires n > 0 && Fresh(outputs)
    ensures Balanced(n, inputs, outputs, parties, 0, Stage(outputs, {}))
  {
    NetStarts(outputs);
    SumSetEmpty();
    CongRefl(n, 0);
    hide Cong, OutputSum, SumSet;
  }

  lemma JointStep(n: nat, inputs: nat, outputs: seq<Output>, parties: seq<Party>, k: nat, b: Stage)
    requires n > 0 && k < |parties| && StageAt(n, inputs, outputs, parties, k) == Some(b)
    requires Balanced(n, inputs, outputs, parties, k, b) && CallResult(n, inputs, parties[k], b).Some?
    ensures Balanced(n, inputs, outputs, parties, k + 1, CallResult(n, inputs, parties[k], b).value)
  {
    hide Cong, Net, Brought, Loss, CallResult, AllBlinded, Sane, StageAt;
    var p := parties[k];
    var a := CallResult(n, inputs, p, b).value;
    CallBalances(n, inputs, p, b);
    CongAdd(n, Net(b), BroughtBy(n, inputs, outputs, parties, k) + Losses(n, inputs, outputs, parties, k),
            Net(a) - Net(b), Brought(inputs, b, p) + Loss(n, inputs, b, p));
  }

  /** Every party finds an output to blind. */
  ghost predicate AllTakePart(n: nat, inputs: nat, outputs: seq<Output>, parties: seq<Party>)
    requires n > 0
  {
    forall k :: 0 <= k < |parties| ==>
      var b := StageAt(n, inputs, outputs, parties, k); b.Some? && HasDue(b.value.outputs, parties[k])
  }

  /** The inputs of all parties. */
  ghost function AllInputs(parties: seq<Party>, inputs: nat): int {
    if parties == [] then 0 else AllInputs(parties[..|parties| - 1], inputs) + InputSum(parties[|parties| - 1].data, inputs)
  }

  lemma {:induction false} AllBrought(n: nat, inputs: nat, outputs: seq<Output>, parties: seq<Party>, k: nat)
    requires n > 0 && k <= |parties| && AllTakePart(n, inputs, outputs, parties)
    ensures BroughtBy(n, inputs, outputs, parties, k) == AllInputs(parties[..k], inputs)
  {
    hide *;
    if k == 0 {
      NothingBrought(n, inputs, outputs, parties);
    } else {
      AllBrought(n, inputs, outputs, parties, k - 1);
      TakesPart(n, inputs, outputs, parties, k - 1);
      BroughtNext(n, inputs, outputs, parties, k - 1);
      AllInputsNext(parties, inputs, k - 1);
    }
  }

  lemma NothingBrought(n: nat, inputs: nat, outputs: seq<Output>, parties: seq<Party>)
    requires n > 0
    ensures BroughtBy(n, inputs, outputs, parties, 0) == AllInputs(parties[..0], inputs)
  {
  }

  lemma TakesPart(n: nat, inputs: nat, outputs: seq<Output>, parties: seq<Party>, k: nat)
    requires n > 0 && k < |parties| && AllTakePart(n, inputs, outputs, parties)
    ensures var b := StageAt(n, inputs, outputs, parties, k);
            b.Some? && Brought(inputs, b.value, parties[k]) == InputSum(parties[k].data, inputs)
  {
    hide StageAt, HasDue, InputSum;
  }

  lemma BroughtNext(n: nat, inputs: nat, outputs: seq<Output>, parties: seq<Party>, k: nat)
    requires n > 0 && k < |parties| && StageAt(n, inputs, outputs, parties, k).Some?
    ensures BroughtBy(n, inputs, outputs, parties, k + 1) ==
            BroughtBy(n, inputs, outputs, parties, k) + Brought(inputs, StageAt(n, inputs, outputs, parties, k).value, parties[k])
  {
    hide StageAt, Brought;
  }

  lemma AllInputsNext(parties: seq<Party>, inputs: nat, k: nat)
    requires k < |parties|
    ensures AllInputs(parties[..k + 1], inputs) == AllInputs(parties[..k], inputs) + InputSum(parties[k].data, inputs)
  {
    hide InputSum;
    assert parties[..k + 1][..k] == parties[..k];
  }

  lemma Balance(n: nat, b: int, i: int, l: int)
    requires n > 0 && Cong(n, b, i + l)
    ensures Cong(n, b, i) <==> Cong(n, l, 0)
  {
    CongRefl(n, i);
    if Cong(n, b, i) {
      CongAdd(n, b, i + l, b, i);
      CongSwap(n, b - b, i + l - i);
    }
    if Cong(n, l, 0) {
      CongAdd(n, i, i, l, 0);
      CongTrans(n, b, i + l, i);
    }
  }

  /**
   If every party finds an output to blind and in the end all are blinded, the outputs balance the
   inputs exactly if the losses cancel out.  A call loses something only if it leaves outputs to
   blind while its output scalar is zero or its offset is passed on already, and what it loses is
   known before it is made.
   */
  lemma JointlyBalanced(n: nat, inputs: nat, outputs: seq<Output>, parties: seq<Party>)
    requires n > 0 && Fresh(outputs) && AllTakePart(n, inputs, outputs, parties)
    requires var s := StageAt(n, inputs, outputs, parties, |parties|); s.Some? && AllBlinded(s.value.outputs)
    ensures Cong(n, OutputSum(StageAt(n, inputs, outputs, parties, |parties|).value.outputs), AllInputs(parties, inputs)) <==>
              Cong(n, Losses(n, inputs, outputs, parties, |parties|), 0)
  {
    hide Cong, SumSet, OutputSum, Losses, BroughtBy, AllInputs, AllBlinded, StageAt, AllTakePart, Fresh, Sane;
    var m := |parties|;
    JointBalances(n, inputs, outputs, parties, m);
    AllBrought(n, inputs, outputs, parties, m);
    assert parties[..m] == parties;
    SumSetEmpty();
    Balance(n, OutputSum(StageAt(n, inputs, outputs, parties, m).value.outputs), AllInputs(parties, inputs),
            Losses(n, inputs, outputs, parties, m));
  }

  /** Every call completes the transaction or has an offset to pass on that was not passed on yet. */
  ghost predicate Guarded(n: nat, inputs: nat, outputs: seq<Output>, parties: seq<Party>)
    requires n > 0
  {
    forall k :: 0 <= k < |parties| ==>
      var b := StageAt(n, inputs, outputs, parties, k);
      b.Some? ==> Completes(b.value, parties[k]) || PassesOn(n, inputs, b.value, parties[k])
  }

  lemma GuardedAt(n: nat, inputs: nat, outputs: seq<Output>, parties: seq<Party>, k: nat)
    requires n > 0 && k < |parties| && Guarded(n, inputs, outputs, parties)
    ensures var b := StageAt(n, inputs, outputs, parties, k); b.Some? ==> Loss(n, inputs, b.value, parties[k]) == 0
  {
    hide StageAt, Completes, PassesOn, HasDue;
  }

  lemma {:induction false} NoLosses(n: nat, inputs: nat, outputs: seq<Output>, parties: seq<Party>, k: nat)
    requires n > 0 && k <= |parties| && Guarded(n, inputs, outputs, parties)
    ensures Losses(n, inputs, outputs, parties, k) == 0
  {
    hide StageAt, Guarded, Loss;
    if k > 0 {
      NoLosses(n, inputs, outputs, parties, k - 1);
      GuardedAt(n, inputs, outputs, parties, k - 1);
    }
  }

  /** So it balances if every party that does not complete it passes on a new offset. */
  lemma GuardedBalances(n: nat, inputs: nat, outputs: seq<Output>, parties: seq<Party>)
    requires n > 0 && Fresh(outputs) && AllTakePart(n, inputs, outputs, parties) && Guarded(n, inputs, outputs, parties)
    requires var s := StageAt(n, inputs, outputs, parties, |parties|); s.Some? && AllBlinded(s.value.outputs)
    ensures Cong(n, OutputSum(StageAt(n, inputs, outputs, parties, |parties|).value.outputs), AllInputs(parties, inputs))
  {
    hide StageAt, Guarded, AllTakePart, Losses, OutputSum, AllInputs, AllBlinded, Fresh;
    JointlyBalanced(n, inputs, outputs, parties);
    NoLosses(n, inputs, outputs, parties, |parties|);
    CongRefl(n, 0);
  }

  lemma {:induction false} StagesFail(n: nat, inputs: nat, outputs: seq<Output>, parties: seq<Party>, i: nat, k: nat)
    requires n > 0 && i <= k <= |parties| && StageAt(n, inputs, outputs, parties, i).None?
    ensures StageAt(n, inputs, outputs, parties, k).None?
    decreases k
  {
    hide CallResult;
    if i < k {
      StagesFail(n, inputs, outputs, parties, i, k - 1);
    }
  }

  /** A fresh transaction that several parties blind one after the other, until one fails. */
  method BlindTogether(n: nat, outputs: seq<Output>, inputs: nat, parties: seq<Party>) returns (ok: bool, blinded: seq<Output>)
    requires n > 0 && Fresh(outputs)
    ensures ok <==> StageAt(n, inputs, outputs, parties, |parties|).Some?
    ensures ok ==> blinded == StageAt(n, inputs, outputs, parties, |parties|).value.outputs
    ensures ok && AllBlinded(blinded) && AllTakePart(n, inputs, outputs, parties) ==>
      && (Balances(n, blinded, parties, inputs) <==> Cong(n, Losses(n, inputs, outputs, parties, |parties|), 0))
      && (Guarded(n, inputs, outputs, parties) ==> Balances(n, blinded, parties, inputs))
  {
    var psbt := new Psbt(n, outputs);
    hide Cong, Sane, OutputSum, Losses, AllInputs, AllBlinded, CallResult, AllTakePart, Guarded, Balances;
    ok, blinded := true, [];
    for k := 0 to |parties|
      invariant psbt.Valid() && psbt.n == n && ok && fresh(psbt)
      invariant StageAt(n, inputs, outputs, parties, k) == Some(psbt.State())
    {
      var status := psbt.BlindPsbt(inputs, parties[k]);
      if !status.Ok? {
        StagesFail(n, inputs, outputs, parties, k + 1, |parties|);
        return false, [];
      }
    }
    blinded := psbt.outputs;
    if AllBlinded(blinded) && AllTakePart(n, inputs, outputs, parties) {
      JointlyBalanced(n, inputs, outputs, parties);
      TotalsBalance(n, blinded, parties, inputs);
      if Guarded(n, inputs, outputs, parties) {
        GuardedBalances(n, inputs, outputs, parties);
      }
    }
  }

  // ----- The balance, written out -----

  /** Value times asset blinder plus value blinder, over the blinded outputs. */
  ghost function TotalOut(outputs: seq<Output>): int {
    if outputs == [] then 0 else
    var o := outputs[|outputs| - 1];
    TotalOut(outputs[..|outputs| - 1]) +
    if o.opening.Some? && o.amount.Some? then o.amount.value * o.opening.value.assetBlinder + o.opening.value.valueBlinder else 0
  }

  /** The same over the inputs that a party knows ... */
  ghost function TotalKnown(data: map<nat, InputData>, k: nat): int {
    if k == 0 then 0 else
    TotalKnown(data, k - 1) + if k - 1 in data then data[k - 1].value * data[k - 1].assetBlinder + data[k - 1].valueBlinder else 0
  }

  /** ... and over those of all parties. */
  ghost function TotalIn(parties: seq<Party>, inputs: nat): int {
    if parties == [] then 0 else
    TotalIn(parties[..|parties| - 1], inputs) + TotalKnown(parties[|parties| - 1].data, inputs)
  }

  lemma {:induction false} OutputsTotal(outputs: seq<Output>)
    ensures OutputSum(outputs) == TotalOut(outputs)
  {
    if outputs != [] {
      OutputsTotal(outputs[..|outputs| - 1]);
    }
  }

  lemma {:induction false} KnownTotal(data: map<nat, InputData>, k: nat)
    ensures InputSum(data, k) == TotalKnown(data, k)
  {
    if k > 0 {
      KnownTotal(data, k - 1);
    }
  }

  lemma {:induction false} InputsTotal(parties: seq<Party>, inputs: nat)
    ensures AllInputs(parties, inputs) == TotalIn(parties, inputs)
  {
    if parties != [] {
      hide InputSum, TotalKnown;
      InputsTotal(parties[..|parties| - 1], inputs);
      KnownTotal(parties[|parties| - 1].data, inputs);
    }
  }

  /** Outputs and inputs have the same total, modulo the group order. */
  ghost predicate Balances(n: nat, outputs: seq<Output>, parties: seq<Party>, inputs: nat)
    requires n > 0
  {
    (TotalOut(outputs) - TotalIn(parties, inputs)) % n == 0
  }

  lemma TotalsBalance(n: nat, outputs: seq<Output>, parties: seq<Party>, inputs: nat)
    requires n > 0
    ensures Balances(n, outputs, parties, inputs) <==> Cong(n, OutputSum(outputs), AllInputs(parties, inputs))
  {
    hide OutputSum, AllInputs, TotalOut, TotalIn;
    OutputsTotal(outputs);
    InputsTotal(parties, inputs);
  }

  /** The output is for this party: to be blinded, not blinded yet, and the party owns the input that it goes by. */
  ghost predicate IsMine(o: Output, p: Party) {
    o.toBlind && o.opening == None && o.blinderIndex.Some? && o.blinderIndex.value in p.data
  }

  /**
   What a successful call blinds: exactly the party's outputs, with the blinders it drew.  Only the value
   blinder of the last of them may be another one, and only if nothing is left to blind.
   */
  lemma CallBlinds(n: nat, inputs: nat, p: Party, b: Stage, j: nat)
    requires n > 0 && CallResult(n, inputs, p, b).Some? && j < |b.outputs|
    ensures var a := CallResult(n, inputs, p, b).value;
            && |a.outputs| == |b.outputs|
            && (!IsMine(b.outputs[j], p) ==> a.outputs[j] == b.outputs[j])
            && (IsMine(b.outputs[j], p) ==>
                  && a.outputs[j].opening.Some? && a.outputs[j] == b.outputs[j].(opening := a.outputs[j].opening)
                  && a.outputs[j].opening.value.assetBlinder == p.random(j).assetBlinder
                  && (a.outputs[j].opening.value.valueBlinder != p.random(j).valueBlinder ==>
                        && (forall i :: 0 <= i < |a.outputs| && a.outputs[i].toBlind ==> a.outputs[i].opening.Some?)
                        && (forall i :: j < i < |b.outputs| ==> !IsMine(b.outputs[i], p))))
  {
    hide OutScalar, InScalar, LastValue, Difference, Opened, SumSet;
    var m := |b.outputs|;
    assert forall i :: 0 <= i < m ==> (IsMine(b.outputs[i], p) <==> Due(b.outputs[i], p.data));
    if !AllBlinded(b.outputs) {
      var l := LastDue(b.outputs, p, m);
      var drawn := Drawn(b.outputs, p, m);
      assert drawn[j] == if Due(b.outputs[j], p.data) then b.outputs[j].(opening := Some(p.random(j))) else b.outputs[j];
      hide LastDue, Drawn;
    }
  }

  // ----- A transaction that does not balance -----

  lemma {:induction false} OutScalarRest(n: nat, outputs: seq<Output>, p: Party, i: nat, k: nat)
    requires n > 0 && i <= k <= |outputs| && forall j :: i <= j < k ==> !Due(outputs[j], p.data)
    ensures OutScalar(n, outputs, p, k) == OutScalar(n, outputs, p, i)
    decreases k
  {
    if i < k {
      OutScalarRest(n, outputs, p, i, k - 1);
    }
  }

  /** A party with exactly one output to blind. */
  ghost predicate OnlyDue(outputs: seq<Output>, p: Party, j: nat) {
    && j < |outputs| && Due(outputs[j], p.data)
    && forall i :: 0 <= i < |outputs| && i != j ==> !Due(outputs[i], p.data)
  }

  lemma SingleDue(n: nat, outputs: seq<Output>, p: Party, j: nat)
    requires n > 0 && OnlyDue(outputs, p, j) && outputs[j].amount.Some?
    ensures OutScalar(n, outputs, p, |outputs|) ==
            AddedOffset(n, 0, outputs[j].amount.value, p.random(j).assetBlinder, p.random(j).valueBlinder)
    ensures Drawn(outputs, p, |outputs|) == outputs[j := outputs[j].(opening := Some(p.random(j)))]
    ensures LastDue(outputs, p, |outputs|) == j && !AllBlinded(outputs)
  {
    hide AddedOffset;
    NothingDue(n, outputs, p, j);
    OutScalarNext(n, outputs, p, j);
    OutScalarRest(n, outputs, p, j + 1, |outputs|);
    assert Due(outputs[j], p.data);
  }

  /** Its call, when the inputs add nothing. */
  lemma SingleCall(n: nat, inputs: nat, p: Party, b: Stage, j: nat, sum: nat)
    requires n > 0 && OnlyDue(b.outputs, p, j) && b.outputs[j].amount.Some? && InScalar(n, p.data, inputs) == Some(0)
    requires AddedOffset(n, 0, b.outputs[j].amount.value, p.random(j).assetBlinder, p.random(j).valueBlinder) == Some(sum)
    requires sum != 0 && Sane(b.outputs)
    ensures var drawn := b.outputs[j := b.outputs[j].(opening := Some(p.random(j)))];
            if !AllBlinded(drawn) then CallResult(n, inputs, p, b) == Some(Stage(drawn, b.offsets + {sum}))
            else var r := LastValue(n, p.random(j).valueBlinder, sum, 0, b.offsets);
                 r.Some? && r.value != 0 ==>
                   CallResult(n, inputs, p, b) ==
                   Some(Stage(b.outputs[j := b.outputs[j].(opening := Some(p.random(j).(valueBlinder := r.value)))], {}))
  {
    SingleDue(n, b.outputs, p, j);
    hide OutScalar, InScalar, Drawn, LastDue, LastValue, AddedOffset, AllBlinded, Due, OnlyDue, Opened;
    var drawn := b.outputs[j := b.outputs[j].(opening := Some(p.random(j)))];
    var r := LastValue(n, p.random(j).valueBlinder, sum, 0, b.offsets);
    if AllBlinded(drawn) && r.Some? && r.value != 0 {
      var o := b.outputs[j].(opening := Some(p.random(j).(valueBlinder := r.value)));
      UpdateTwice(b.outputs, j, drawn[j], o);
      assert Through(n, b, p, 0, |b.outputs|) == Some(Stage(b.outputs[j := o], {}));
      StillAllBlinded(drawn, j, o);
    }
  }

  lemma StillAllBlinded(outputs: seq<Output>, l: nat, o: Output)
    requires l < |outputs| && AllBlinded(outputs) && o.opening.Some?
    ensures AllBlinded(outputs[l := o])
  {
  }

  /** An output of amount one for the owner of input `j`, blinded with a value blinder or not yet. */
  function Unit(j: nat, valueBlinder: Option<nat>): Output {
    Output(true, Some(j), Some(1), if valueBlinder.None? then None else Some(Opening(1, valueBlinder.value)))
  }

  function UnitParty(j: nat): Party {
    Party(map[j := InputData(1, 0, 0)], _ => Opening(1, 1))
  }

  /** Three such outputs after `k` parties drew the blinders one and one. */
  function UnitStage(n: nat, k: nat): Stage
    requires n >= 5
  {
    if k == 0 then Stage([Unit(0, None), Unit(1, None), Unit(2, None)], {})
    else if k == 1 then Stage([Unit(0, Some(1)), Unit(1, None), Unit(2, None)], {2})
    else if k == 2 then Stage([Unit(0, Some(1)), Unit(1, Some(1)), Unit(2, None)], {2})
    else Stage([Unit(0, Some(1)), Unit(1, Some(1)), Unit(2, Some(n - 3))], {})
  }

  lemma UnitArith(n: nat)
    requires n >= 5
    ensures AddedOffset(n, 0, 1, 1, 1) == Some(2)
    ensures Difference(n, 2, 0) == Some(2) && Difference(n, 1, 2) == Some(n - 1) && Difference(n, n - 1, 2) == Some(n - 3)
  {
    DivUnique(1, n, 0, 1);
    DivUnique(2, n, 0, 2);
    DivUnique(-1, n, -1, n - 1);
    DivUnique(n - 3, n, 0, n - 3);
  }

  lemma UnitLast(n: nat)
    requires n >= 5
    ensures LastValue(n, 1, 2, 0, {2}) == Some(n - 3)
  {
    UnitArith(n);
    hide Difference;
    assert Least({2}) == 2 && {2} - {2} == {};
    assert SubtractEach(n, n - 3, {}) == Some(n - 3);
    assert SubtractEach(n, n - 1, {2}) == Some(n - 3);
  }

  lemma {:induction false} UnitInputs(n: nat, j: nat, k: nat)
    requires n > 0
    ensures InScalar(n, UnitParty(j).data, k) == Some(0) && InputSum(UnitParty(j).data, k) == 0
  {
    if k > 0 {
      UnitInputs(n, j, k - 1);
    }
  }

  lemma UnitCall(n: nat, k: nat)
    requires n >= 5 && k < 3
    ensures CallResult(n, 3, UnitParty(k), UnitStage(n, k)) == Some(UnitStage(n, k + 1))
  {
    hide *;
    UnitArith(n);
    UnitLast(n);
    UnitInputs(n, k, 3);
    UnitDue(n, k);
    UnitDrawn(n, k);
    SingleCall(n, 3, UnitParty(k), UnitStage(n, k), k, 2);
  }

  /** The party draws its own blinders; only the last one completes the transaction. */
  lemma UnitDrawn(n: nat, k: nat)
    requires n >= 5 && k < |UnitStage(n, k).outputs| && k < 3
    ensures UnitParty(k).random(k) == Opening(1, 1) && UnitStage(n, k).outputs[k].amount == Some(1)
    ensures var b := UnitStage(n, k);
            var drawn := b.outputs[k := b.outputs[k].(opening := Some(Opening(1, 1)))];
            if k < 2 then !AllBlinded(drawn) && Stage(drawn, b.offsets + {2}) == UnitStage(n, k + 1)
            else && AllBlinded(drawn) && b.offsets == {2}
                 && Stage(b.outputs[k := b.outputs[k].(opening := Some(Opening(1, n - 3)))], {}) == UnitStage(n, k + 1)
  {
    var b := UnitStage(n, k);
    var drawn := b.outputs[k := b.outputs[k].(opening := Some(Opening(1, 1)))];
    if k < 2 {
      assert drawn[2].toBlind && drawn[2].opening.None?;
      assert drawn == UnitStage(n, k + 1).outputs && b.offsets + {2} == {2};
    } else {
      assert b.outputs[2 := Unit(2, Some(n - 3))] == UnitStage(n, 3).outputs;
    }
  }

  lemma UnitDue(n: nat, k: nat)
    requires n >= 5 && k < 3
    ensures OnlyDue(UnitStage(n, k).outputs, UnitParty(k), k) && Sane(UnitStage(n, k).outputs)
    ensures |UnitStage(n, k).outputs| == 3 && UnitStage(n, k).outputs[k] == Unit(k, None)
  {
  }

  lemma UnitSum(n: nat)
    requires n >= 5
    ensures OutputSum(UnitStage(n, 3).outputs) == n + 2
  {
    var s := UnitStage(n, 3).outputs;
    assert s[..2] == [s[0], s[1]] && s[..2][..1] == [s[0]] && s[..2][..1][..0] == [];
    assert OutputSum([s[0]]) == 2;
    assert OutputSum([s[0], s[1]]) == 4;
  }

  lemma {:induction false} NoInputs(parties: seq<Party>, inputs: nat)
    requires forall k :: 0 <= k < |parties| ==> InputSum(parties[k].data, inputs) == 0
    ensures AllInputs(parties, inputs) == 0
  {
    if parties != [] {
      NoInputs(parties[..|parties| - 1], inputs);
    }
  }

  /** In every group: two parties that pass on the same offset, and the balance is lost. */
  method RepeatedOffsetIsLost(n: nat) returns (ok: bool, blinded: seq<Output>, ghost parties: seq<Party>)
    requires n >= 5
    ensures ok && AllBlinded(blinded) && AllTakePart(n, 3, [Unit(0, None), Unit(1, None), Unit(2, None)], parties)
    ensures !Balances(n, blinded, parties, 3)
  {
    hide CallResult, OutputSum, InputSum, AllInputs, Losses, Guarded, HasDue, Balances;
    var outputs := [Unit(0, None), Unit(1, None), Unit(2, None)];
    var ps := [UnitParty(0), UnitParty(1), UnitParty(2)];
    ok, blinded := BlindTogether(n, outputs, 3, ps);
    parties := ps;
    UnitRun(n, outputs, ps);
    UnitSum(n);
    DivUnique(n + 2, n, 1, 2);
    TotalsBalance(n, blinded, ps, 3);
  }

  lemma UnitRun(n: nat, outputs: seq<Output>, ps: seq<Party>)
    requires n >= 5 && outputs == UnitStage(n, 0).outputs && ps == [UnitParty(0), UnitParty(1), UnitParty(2)]
    ensures StageAt(n, 3, outputs, ps, 3) == Some(UnitStage(n, 3))
    ensures AllTakePart(n, 3, outputs, ps) && AllInputs(ps, 3) == 0
  {
    hide CallResult, InputSum, UnitStage, UnitParty;
    assert StageAt(n, 3, outputs, ps, 0) == Some(UnitStage(n, 0)) by {
      UnitStart(n, outputs);
    }
    UnitCall(n, 0);
    assert StageAt(n, 3, outputs, ps, 1) == Some(UnitStage(n, 1));
    UnitCall(n, 1);
    assert StageAt(n, 3, outputs, ps, 2) == Some(UnitStage(n, 2));
    UnitCall(n, 2);
    hide StageAt;
    forall k | 0 <= k < 3
      ensures HasDue(UnitStage(n, k).outputs, ps[k]) && InputSum(ps[k].data, 3) == 0
    {
      UnitDue(n, k);
      UnitInputs(n, k, 3);
    }
    NoInputs(ps, 3);
  }

  lemma UnitStart(n: nat, outputs: seq<Output>)
    requires n >= 5 && outputs == UnitStage(n, 0).outputs
    ensures UnitStage(n, 0) == Stage(outputs, {})
  {
  }
}
