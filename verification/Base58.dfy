/**
 Base58 (src/base58.cpp): the conversion of byte strings to strings over 58 characters and
 back.  Both directions rewrite a fixed-size buffer of digits with a carry loop.
 */
module Base58 {
  import opened Power

  // ----- Numbers and their digits, most significant first -----

  ghost predicate DigitsOf(base: nat, s: seq<nat>) {
    forall i :: 0 <= i < |s| ==> s[i] < base
  }

  function Num(base: nat, s: seq<nat>): int {
    if s == [] then 0 else Num(base, s[..|s| - 1]) * base + s[|s| - 1]
  }

  /** The digits of a number, without leading zeros. */
  function Digits(base: nat, x: int): seq<nat>
    requires base >= 2
    decreases x
  {
    if x <= 0 then [] else Digits(base, x / base) + [x % base]
  }

  lemma NumNext(base: nat, s: seq<nat>, d: nat)
    ensures Num(base, s + [d]) == Num(base, s) * base + d
  {
    assert (s + [d])[..|s|] == s;
  }

  lemma {:induction false} NumBound(base: nat, s: seq<nat>)
    requires DigitsOf(base, s)
    ensures 0 <= Num(base, s) < Pow(base, |s|)
  {
    if s != [] {
      var n := |s| - 1;
      NumBound(base, s[..n]);
      assert Num(base, s) == Num(base, s[..n]) * base + s[n] && Pow(base, |s|) == base * Pow(base, n);
      hide Num, Pow;
      DigitBound(Num(base, s[..n]), s[n], base, Pow(base, n));
    }
  }

  lemma DigitBound(v: int, d: nat, base: nat, p: nat)
    requires 0 <= v < p && d < base
    ensures 0 <= v * base + d < base * p
  {
    MulGrows(0, v, base);
    MulGrows(v + 1, p, base);
    Distribute(v, 1, base);
  }

  lemma {:induction false} NumSplit(base: nat, s: seq<nat>, t: seq<nat>)
    ensures Num(base, s + t) == Num(base, s) * Pow(base, |t|) + Num(base, t)
  {
    if t == [] {
      assert s + t == s;
    } else {
      var n := |t| - 1;
      assert (s + t)[..|s| + n] == s + t[..n];
      NumSplit(base, s, t[..n]);
      Distribute(Num(base, s) * Pow(base, n), Num(base, t[..n]), base);
      MulAssoc(Num(base, s), Pow(base, n), base);
    }
  }

  lemma {:induction false} NumZeros(base: nat, s: seq<nat>)
    requires forall i :: 0 <= i < |s| ==> s[i] == 0
    ensures Num(base, s) == 0
  {
    if s != [] {
      NumZeros(base, s[..|s| - 1]);
    }
  }

  lemma {:induction false} DigitsAreDigits(base: nat, x: int)
    requires base >= 2
    ensures DigitsOf(base, Digits(base, x)) && (x > 0 ==> Digits(base, x) != [] && Digits(base, x)[0] != 0)
    decreases x
  {
    hide Digits, DigitsOf;
    DigitsUnfold(base, x);
    if x > 0 {
      DivShrinks(x, base);
      DivMod(x, base);
      DigitsAreDigits(base, x / base);
      DigitsLast(base, Digits(base, x / base), x % base);
      DigitsUnfold(base, x / base);
      if x / base > 0 {
        assert Digits(base, x)[0] == Digits(base, x / base)[0];
      }
    }
  }

  lemma DigitsUnfold(base: nat, x: int)
    requires base >= 2
    ensures Digits(base, x) == if x <= 0 then [] else Digits(base, x / base) + [x % base]
    ensures x <= 0 ==> DigitsOf(base, Digits(base, x))
  {
  }

  lemma DigitsLast(base: nat, s: seq<nat>, d: nat)
    requires DigitsOf(base, s) && d < base
    ensures DigitsOf(base, s + [d])
  {
  }

  lemma {:induction false} NumOfDigits(base: nat, x: nat)
    requires base >= 2
    ensures Num(base, Digits(base, x)) == x
    decreases x
  {
    if x == 0 {
      return;
    }
    hide Digits, Num;
    DigitsUnfold(base, x);
    DivShrinks(x, base);
    DivMod(x, base);
    NumOfDigits(base, x / base);
    NumNext(base, Digits(base, x / base), x % base);
  }

  lemma {:induction false} DigitsOfNum(base: nat, s: seq<nat>)
    requires base >= 2 && DigitsOf(base, s) && (s != [] ==> s[0] != 0)
    ensures Digits(base, Num(base, s)) == s && (s != [] ==> Num(base, s) > 0)
  {
    if s != [] {
      var n := |s| - 1;
      if n > 0 {
        assert s[..n][0] == s[0];
      }
      DigitsOfNum(base, s[..n]);
      NumBound(base, s[..n]);
      DivUnique(Num(base, s), base, Num(base, s[..n]), s[n]);
      MulGrows(0, Num(base, s[..n]), base);
      if n > 0 {
        MulGrows(1, Num(base, s[..n]), base);
      }
      assert s == s[..n] + [s[n]];
    }
  }

  // ----- The digit buffer -----

  /** The buffer holds `v` in its last `length` places, and zeros before them. */
  ghost predicate Holds(buf: seq<nat>, base: nat, length: nat, v: int)
    requires base >= 2
  {
    && length <= |buf|
    && (forall k :: 0 <= k < |buf| - length ==> buf[k] == 0)
    && buf[|buf| - length..] == Digits(base, v)
  }

  lemma {:induction false} DigitsCount(base: nat, v: nat)
    requires base >= 2
    ensures v < Pow(base, |Digits(base, v)|) && (v > 0 ==> Pow(base, |Digits(base, v)| - 1) <= v)
    decreases v
  {
    DigitsAreDigits(base, v);
    NumOfDigits(base, v);
    NumBound(base, Digits(base, v));
    if v > 0 {
      LeadCounts(base, Digits(base, v));
    }
  }

  lemma LeadCounts(base: nat, s: seq<nat>)
    requires base >= 2 && DigitsOf(base, s) && s != []
    ensures s[0] != 0 <==> Num(base, s) >= Pow(base, |s| - 1)
  {
    assert s == [s[0]] + s[1..];
    NumSplit(base, [s[0]], s[1..]);
    NumBound(base, s[1..]);
    assert Num(base, [s[0]]) == s[0];
    hide Num, Pow;
    if s[0] != 0 {
      MulGrows(1, s[0], Pow(base, |s| - 1));
    }
  }

  /** One step of the carry loop, on the last `i` places of the buffer before and after. */
  lemma CarryStep(from: nat, to: nat, before: seq<nat>, after: seq<nat>, x: nat, carry: nat, d: nat)
    requires to >= 2 && |before| == |after|
    requires Num(to, after) + carry * Pow(to, |after|) == Num(to, before) * from + d
    ensures var n := carry + from * x;
            Num(to, [n % to] + after) + n / to * Pow(to, |after| + 1) == Num(to, [x] + before) * from + d
  {
    hide *;
    var n := carry + from * x;
    NumFirst(to, n % to, after);
    NumFirst(to, x, before);
    CarryArith(Num(to, after), Num(to, before), carry, Pow(to, |after|), from, d, x, to);
    PowNext(to, |after|);
  }

  lemma NumFirst(base: nat, x: nat, s: seq<nat>)
    ensures Num(base, [x] + s) == x * Pow(base, |s|) + Num(base, s)
  {
    NumSplit(base, [x], s);
    assert Num(base, [x]) == x;
  }

  lemma PowNext(base: nat, n: nat)
    ensures Pow(base, n + 1) == base * Pow(base, n)
  {
  }

  lemma CarryArith(a: int, b: int, carry: int, p: int, from: int, d: int, x: int, to: int)
    requires to > 0 && a + carry * p == b * from + d
    ensures var n := carry + from * x; n % to * p + a + n / to * (to * p) == (x * p + b) * from + d
  {
    var n := carry + from * x;
    DivMod(n, to);
    MulAssoc(n / to, to, p);
    Distribute(n / to * to, n % to, p);
    Distribute(carry, from * x, p);
    Distribute(x * p, b, from);
    MulAssoc(from, x, p);
  }

  function Carried(carry: nat, from: nat, x: nat): nat {
    carry + from * x
  }

  function Quotient(n: nat, to: nat): nat
    requires to > 0
  {
    n / to
  }

  function Remainder(n: nat, to: nat): nat
    requires to > 0
  {
    n % to
  }

  /** Multiply the number in the buffer by `from` and add `d`. */
  method PushDigit(buf: array<nat>, length: nat, from: nat, to: nat, d: nat, ghost v: nat) returns (newLength: nat)
    requires from >= 2 && to >= 2 && Holds(buf[..], to, length, v) && v * from + d < Pow(to, buf.Length)
    modifies buf
    ensures Holds(buf[..], to, newLength, v * from + d)
  {
    hide *;
    var size := buf.Length;
    ghost var s := buf[..];
    var carry, i := d, 0;
    HoldsZeros(s, to, length, v);
    PushStarts(s, length, from, to, d);
    while (carry != 0 || i < length) && i < size
      invariant 0 <= i <= size && carry >= 0 && Pushing(s, buf[..], length, i, from, to, d, carry)
    {
      ghost var t := buf[..];
      var j := size - 1 - i;
      var n := Carried(carry, from, buf[j]);
      PushStep(s, t, length, i, from, to, d, carry);
      buf[j] := Remainder(n, to);
      carry := Quotient(n, to);
      assert buf[..] == t[j := buf[j]];
      i := i + 1;
    }
    PushEnds(s, buf[..], length, i, from, to, d, v, carry);
    assert carry == 0;
    newLength := i;
  }

  /** The carry loop after `i` places: the last `i` places and the carry are up to date. */
  ghost predicate Pushing(s: seq<nat>, t: seq<nat>, length: nat, i: nat, from: nat, to: nat, d: nat, carry: nat) {
    && |s| == |t| && i <= |s|
    && t[..|s| - i] == s[..|s| - i] && DigitsOf(to, t[|s| - i..])
    && Num(to, t[|s| - i..]) + carry * Pow(to, i) == Num(to, s[|s| - i..]) * from + d
    && (length < i && carry == 0 ==> t[|s| - i] != 0)
  }

  lemma PushStarts(s: seq<nat>, length: nat, from: nat, to: nat, d: nat)
    ensures Pushing(s, s, length, 0, from, to, d, d)
  {
  }

  lemma PushStep(s: seq<nat>, t: seq<nat>, length: nat, i: nat, from: nat, to: nat, d: nat, carry: nat)
    requires to >= 2 && Pushing(s, t, length, i, from, to, d, carry) && i < |s| == |t|
    requires carry != 0 || i < length
    requires forall k :: 0 <= k < |s| - length ==> s[k] == 0
    ensures var j := |s| - 1 - i; var n := Carried(carry, from, t[j]);
            Pushing(s, t[j := Remainder(n, to)], length, i + 1, from, to, d, Quotient(n, to))
  {
    hide Num, Pow, DigitsOf;
    var j, tail := |s| - 1 - i, t[|s| - i..];
    assert t[j] == t[..|s| - i][j] == s[j];
    var n: nat := carry + from * t[j];
    CarryStep(from, to, s[|s| - i..], tail, s[j], carry, d);
    DivMod(n, to);
    PushPlaced(s, t, length, i, from, to, d, carry, n / to, n % to);
  }

  /** Writing `r` one place further up and carrying `q` keeps the equation. */
  lemma PushPlaced(s: seq<nat>, t: seq<nat>, length: nat, i: nat, from: nat, to: nat, d: nat, carry: nat, q: nat, r: nat)
    requires Pushing(s, t, length, i, from, to, d, carry) && i < |s| && r < to && (length < i + 1 && q == 0 ==> r != 0)
    requires Num(to, [r] + t[|s| - i..]) + q * Pow(to, i + 1) == Num(to, [s[|s| - 1 - i]] + s[|s| - i..]) * from + d
    ensures Pushing(s, t[|s| - 1 - i := r], length, i + 1, from, to, d, q)
  {
    hide Num, Pow, DigitsOf;
    PushShape(s, t, i, r);
    DigitsFirst(to, r, t[|s| - i..]);
  }

  lemma PushShape(s: seq<nat>, t: seq<nat>, i: nat, x: nat)
    requires i < |s| == |t| && t[..|s| - i] == s[..|s| - i]
    ensures var j := |s| - 1 - i;
            && t[j := x][j..] == [x] + t[|s| - i..] && s[j..] == [s[j]] + s[|s| - i..] && t[j := x][..j] == s[..j]
  {
    var j := |s| - 1 - i;
    assert s[..j] == s[..|s| - i][..j] && t[..j] == t[..|s| - i][..j];
  }

  lemma DigitsFirst(base: nat, x: nat, s: seq<nat>)
    requires x < base && DigitsOf(base, s)
    ensures DigitsOf(base, [x] + s)
  {
  }

  lemma PushEnds(s: seq<nat>, t: seq<nat>, length: nat, i: nat, from: nat, to: nat, d: nat, v: nat, carry: nat)
    requires from >= 2 && to >= 2 && Holds(s, to, length, v) && v * from + d < Pow(to, |s|)
    requires Pushing(s, t, length, i, from, to, d, carry) && (i == |s| || (carry == 0 && i >= length))
    ensures carry == 0 && Holds(t, to, i, v * from + d)
  {
    hide Num, Pow, Digits, Holds, DigitsOf;
    var tail, w := t[|s| - i..], v * from + d;
    HoldsLength(s, to, length, v);
    OldTail(s, to, length, i, v);
    NumBound(to, tail);
    if i == |s| {
      NoCarry(Num(to, tail), carry, Pow(to, i), w);
    }
    assert 0 * Pow(to, i) == 0;
    if length == i && i > 0 {
      HoldsCount(s, to, length, v);
      MulGrows(1, from, v);
      LeadCounts(to, tail);
    }
    if i > 0 {
      assert tail[0] == t[|s| - i];
    }
    DigitsOfNum(to, tail);
    HoldsMoves(s, t, to, length, v, i, w);
  }

  lemma HoldsZeros(s: seq<nat>, to: nat, length: nat, v: int)
    requires to >= 2 && Holds(s, to, length, v)
    ensures forall k :: 0 <= k < |s| - length ==> s[k] == 0
  {
  }

  lemma HoldsLength(s: seq<nat>, to: nat, length: nat, v: int)
    requires to >= 2 && Holds(s, to, length, v)
    ensures length <= |s|
  {
  }

  lemma HoldsMoves(s: seq<nat>, t: seq<nat>, to: nat, length: nat, v: int, i: nat, w: int)
    requires to >= 2 && Holds(s, to, length, v) && |s| == |t| && length <= i <= |s|
    requires t[..|s| - i] == s[..|s| - i] && t[|s| - i..] == Digits(to, w)
    ensures Holds(t, to, i, w)
  {
    assert forall k :: 0 <= k < |s| - i ==> t[k] == t[..|s| - i][k] == s[k];
  }

  lemma NoCarry(a: int, carry: nat, p: nat, w: int)
    requires a >= 0 && a + carry * p == w < p
    ensures carry == 0
  {
    if carry != 0 {
      MulGrows(1, carry, p);
      assert false;
    }
  }

  lemma OldTail(s: seq<nat>, to: nat, length: nat, i: nat, v: nat)
    requires to >= 2 && Holds(s, to, length, v) && length <= i <= |s|
    ensures Num(to, s[|s| - i..]) == v
  {
    var zeros := s[|s| - i..|s| - length];
    assert s[|s| - i..] == zeros + s[|s| - length..];
    NumSplit(to, zeros, s[|s| - length..]);
    NumZeros(to, zeros);
    NumOfDigits(to, v);
  }

  lemma HoldsCount(s: seq<nat>, to: nat, length: nat, v: nat)
    requires to >= 2 && Holds(s, to, length, v) && length > 0
    ensures v >= Pow(to, length - 1)
  {
    DigitsCount(to, v);
  }

  // ----- The buffers are large enough -----

  lemma {:induction false} PowOfPow(b: nat, m: nat, n: nat)
    ensures Pow(Pow(b, m), n) == Pow(b, m * n)
    decreases n
  {
    if n > 0 {
      PowOfPow(b, m, n - 1);
      PowAdd(b, m, m * (n - 1));
      assert m + m * (n - 1) == m * n;
    }
  }

  lemma {:induction false} PowMonotone(a: nat, b: nat, n: nat)
    requires a <= b
    ensures Pow(a, n) <= Pow(b, n)
    decreases n
  {
    if n > 0 {
      PowMonotone(a, b, n - 1);
      MulGrows(a, b, Pow(a, n - 1));
      MulGrows(Pow(a, n - 1), Pow(b, n - 1), b);
    }
  }

  lemma {:induction false} PowStrict(a: nat, b: nat, n: nat)
    requires a < b && n > 0
    ensures Pow(a, n) < Pow(b, n)
    decreases n
  {
    if n == 1 {
      assert Pow(a, 1) == a && Pow(b, 1) == b;
    } else {
      PowStrict(a, b, n - 1);
      ProductLess(a, b, Pow(a, n - 1), Pow(b, n - 1));
    }
  }

  lemma ProductLess(a: nat, b: nat, x: nat, y: nat)
    requires a < b && x < y
    ensures a * x < b * y
  {
    MulGrows(x, y, a);
    MulGrows(a, b - 1, y);
    Distribute(b, 1, y);
  }

  lemma SwapPowers(b: nat, m: nat, n: nat)
    ensures Pow(Pow(b, m), n) == Pow(Pow(b, n), m)
  {
    hide *;
    PowOfPow(b, m, n);
    PowOfPow(b, n, m);
    assert m * n == n * m;
  }

  lemma PowersCompare(b: nat, k: nat, m: nat, n: nat, l: nat)
    requires b > 0 && k * m <= n * l
    ensures Pow(Pow(b, k), m) <= Pow(Pow(b, n), l)
  {
    hide *;
    PowOfPow(b, k, m);
    PowOfPow(b, n, l);
    PowGrows(b, k * m, n * l);
  }

  /** If `from`^a <= `to`^b then a buffer of at least n*b/a digits holds every number of n digits. */
  lemma RatioSuffices(from: nat, to: nat, a: nat, b: nat, n: nat, size: nat)
    requires from > 0 && to > 0 && a > 0 && Pow(from, a) <= Pow(to, b) && b * n <= a * size
    ensures Pow(from, n) <= Pow(to, size)
  {
    hide *;
    SwapPowers(from, n, a);
    PowMonotone(Pow(from, a), Pow(to, b), n);
    PowersCompare(to, b, n, a, size);
    SwapPowers(to, a, size);
    if Pow(from, n) > Pow(to, size) {
      PowStrict(Pow(to, size), Pow(from, n), a);
      assert false;
    }
  }

  lemma EncodeRatio()
    ensures Pow(256, 8) <= Pow(58, 11)
  {
    PowAdd(256, 4, 4);
    PowAdd(58, 5, 6);
    assert Pow(256, 4) == 0x1_0000_0000 && Pow(58, 5) == 656356768 && Pow(58, 6) == 38068692544;
  }

  lemma Power58()
    ensures Pow(58, 32) == 268965015114358137726910587140455987105619365599731777536
  {
    assert Pow(58, 4) == 11316496;
    hide Pow;
    PowAdd(58, 4, 4);
    PowAdd(58, 8, 8);
    PowAdd(58, 16, 16);
  }

  lemma Power256()
    ensures Pow(256, 32) == 0x1_0000_0000_0000_0000_0000_0000_0000_0000_0000_0000_0000_0000_0000_0000_0000_0000
  {
    assert Pow(256, 4) == 0x1_0000_0000;
    hide Pow;
    PowAdd(256, 4, 4);
    PowAdd(256, 8, 8);
    PowAdd(256, 16, 16);
  }

  lemma DecodeRatio()
    ensures Pow(58, 71) <= Pow(256, 52)
  {
    Power58();
    Power256();
    assert Pow(58, 4) == 11316496 && Pow(58, 3) == 195112 && Pow(256, 4) == 0x1_0000_0000;
    hide Pow;
    PowAdd(58, 32, 32);
    PowAdd(58, 4, 3);
    PowAdd(58, 64, 7);
    PowAdd(256, 4, 4);
    PowAdd(256, 8, 8);
    PowAdd(256, 16, 4);
    PowAdd(256, 32, 20);
  }

  /** log(256) / log(58), rounded up. */
  lemma EncodeSize(n: nat)
    ensures Pow(256, n) <= Pow(58, n * 138 / 100 + 1)
  {
    EncodeRatio();
    hide Pow;
    RatioSuffices(256, 58, 8, 11, n, n * 138 / 100 + 1);
  }

  /** log(58) / log(256), rounded up. */
  lemma DecodeSize(n: nat)
    ensures Pow(58, n) <= Pow(256, n * 733 / 1000 + 1)
  {
    DecodeRatio();
    hide Pow;
    RatioSuffices(58, 256, 71, 52, n, n * 733 / 1000 + 1);
  }

  // ----- Characters -----

  /** The alphabet: all digits and letters, in ASCII order, except "0", "I", "O" and "l". */
  function CharOf(d: nat): char
    requires d < 58
  {
    if d < 9 then ('1' as int + d) as char
    else if d < 17 then ('A' as int + d - 9) as char
    else if d < 22 then ('J' as int + d - 17) as char
    else if d < 33 then ('P' as int + d - 22) as char
    else if d < 44 then ('a' as int + d - 33) as char
    else ('m' as int + d - 44) as char
  }

  /** The digit a character stands for, or -1. */
  function DigitOf(c: char): int {
    if '1' <= c <= '9' then c as int - '1' as int
    else if 'A' <= c <= 'H' then c as int - 'A' as int + 9
    else if 'J' <= c <= 'N' then c as int - 'J' as int + 17
    else if 'P' <= c <= 'Z' then c as int - 'P' as int + 22
    else if 'a' <= c <= 'k' then c as int - 'a' as int + 33
    else if 'm' <= c <= 'z' then c as int - 'm' as int + 44
    else -1
  }

  lemma AlphabetIsInverse(d: nat, c: char)
    requires d < 58
    ensures DigitOf(CharOf(d)) == d && (DigitOf(c) == d <==> c == CharOf(d)) && !IsSpace(CharOf(d)) && CharOf(d) != '\0'
  {
  }

  const ALPHABET := "123456789" + "ABCDEFGH" + "JKLMN" + "PQRSTUVWXYZ" + "abcdefghijk" + "mnopqrstuvwxyz"

  lemma AlphabetIs(d: nat)
    requires d < 58
    ensures |ALPHABET| == 58 && CharOf(d) == ALPHABET[d]
  {
    if d < 9 {
      assert ALPHABET[d] == "123456789"[d];
    } else if d < 17 {
      assert ALPHABET[d] == "ABCDEFGH"[d - 9];
    } else if d < 22 {
      assert ALPHABET[d] == "JKLMN"[d - 17];
    } else if d < 33 {
      assert ALPHABET[d] == "PQRSTUVWXYZ"[d - 22];
    } else if d < 44 {
      assert ALPHABET[d] == "abcdefghijk"[d - 33];
    } else {
      assert ALPHABET[d] == "mnopqrstuvwxyz"[d - 44];
    }
  }

  predicate IsSpace(c: char) {
    c == ' ' || 9 <= c as int <= 13
  }

  /** The text of a list of digits. */
  function Text(ds: seq<nat>): string
    requires DigitsOf(58, ds)
  {
    if ds == [] then "" else Text(ds[..|ds| - 1]) + [CharOf(ds[|ds| - 1])]
  }

  /** How many elements at the start are `x`. */
  function Leading<T(==)>(s: seq<T>, x: T): (n: nat)
    ensures n <= |s| && (forall k :: 0 <= k < n ==> s[k] == x) && (n < |s| ==> s[n] != x)
  {
    if s == [] || s[0] != x then 0 else 1 + Leading(s[1..], x)
  }

  function Repeat<T>(x: T, n: nat): (s: seq<T>)
    ensures |s| == n && forall k :: 0 <= k < n ==> s[k] == x
  {
    seq(n, _ => x)
  }

  // ----- Encoding -----

  /** Leading zero bytes become ones; the rest is one number. */
  function Encoded(b: seq<nat>): string {
    DigitsAreDigits(58, Num(256, b));
    Repeat('1', Leading(b, 0)) + Text(Digits(58, Num(256, b)))
  }

  lemma SkipLeading(base: nat, b: seq<nat>, n: nat)
    requires n <= |b| && forall k :: 0 <= k < n ==> b[k] == 0
    ensures Num(base, b[n..]) == Num(base, b)
  {
    assert b == b[..n] + b[n..];
    NumSplit(base, b[..n], b[n..]);
    NumZeros(base, b[..n]);
  }

  method NewBuffer(size: nat, base: nat) returns (buf: array<nat>)
    requires base >= 2
    ensures fresh(buf) && buf.Length == size && Holds(buf[..], base, 0, 0)
  {
    buf := new nat[size](_ => 0);
  }

  /** The bytes as one number in base 58: its digits are in the buffer from `it` on. */
  function TextSize(n: nat): nat {
    n * 138 / 100 + 1
  }

  lemma TextFits(input: seq<nat>, p: nat)
    requires DigitsOf(256, input) && p <= |input|
    ensures 0 <= Num(256, input[..p]) < Pow(58, TextSize(|input|))
  {
    EncodeSize(|input|);
    PrefixFits(256, input, p);
  }

  method ToBase58(input: seq<nat>) returns (b58: array<nat>, it: nat)
    requires DigitsOf(256, input)
    ensures fresh(b58) && it <= b58.Length
    ensures b58[it..] == Digits(58, Num(256, input)) && DigitsOf(58, Digits(58, Num(256, input)))
  {
    hide *;
    var size := TextSize(|input|);
    b58 := NewBuffer(size, 58);
    NumNothing(256);
    var length: nat := 0;
    for p := 0 to |input|
      invariant 0 <= Num(256, input[..p]) && Holds(b58[..], 58, length, Num(256, input[..p]))
    {
      assert input[..p + 1] == input[..p] + [input[p]];
      NumNext(256, input[..p], input[p]);
      TextFits(input, p + 1);
      length := PushDigit(b58, length, 256, 58, input[p], Num(256, input[..p]));
    }
    assert input[..|input|] == input;
    HoldsLength(b58[..], 58, length, Num(256, input));
    it := size - length;
    while it < size && b58[it] == 0
      invariant size - length <= it <= size && forall k :: size - length <= k < it ==> b58[k] == 0
    {
      it := it + 1;
    }
    NoLeadingZero(b58[..], 58, length, Num(256, input), it);
    assert b58[it..] == b58[..][it..];
  }

  lemma NumNothing(base: nat)
    ensures Num(base, []) == 0
  {
  }

  method EncodeBase58(input: seq<nat>) returns (str: string)
    requires DigitsOf(256, input)
    ensures str == Encoded(input)
  {
    var zeroes := 0;
    while zeroes < |input| && input[zeroes] == 0
      invariant 0 <= zeroes <= |input| && forall k :: 0 <= k < zeroes ==> input[k] == 0
    {
      zeroes := zeroes + 1;
    }
    SkipLeading(256, input, zeroes);
    LeadingIs(input, 0, zeroes);
    hide Num, Digits, Text, Leading;
    var b58, it := ToBase58(input[zeroes..]);
    str := Translate(zeroes, b58[it..]);
  }

  method Translate(zeroes: nat, ds: seq<nat>) returns (str: string)
    requires DigitsOf(58, ds)
    ensures str == Repeat('1', zeroes) + Text(ds)
  {
    hide *;
    str := Repeat('1', zeroes);
    TextStarts();
    for it := 0 to |ds|
      invariant DigitsOf(58, ds[..it]) && str == Repeat('1', zeroes) + Text(ds[..it])
    {
      TextNext(ds, it);
      str := str + [CharOf(ds[it])];
    }
    assert ds[..|ds|] == ds;
  }

  lemma TextStarts()
    ensures DigitsOf(58, []) && Text([]) == ""
  {
  }

  lemma TextNext(ds: seq<nat>, k: nat)
    requires DigitsOf(58, ds) && k < |ds|
    ensures DigitsOf(58, ds[..k]) && DigitsOf(58, ds[..k + 1]) && ds[k] < 58
    ensures Text(ds[..k + 1]) == Text(ds[..k]) + [CharOf(ds[k])]
  {
    assert ds[..k + 1][..k] == ds[..k];
  }

  /** The number in the buffer starts at its first digit that is not zero. */
  lemma NoLeadingZero(buf: seq<nat>, base: nat, length: nat, v: nat, it: nat)
    requires base >= 2 && Holds(buf, base, length, v) && |buf| - length <= it <= |buf|
    requires forall k :: |buf| - length <= k < it ==> buf[k] == 0
    ensures it == |buf| - length && buf[it..] == Digits(base, v) && DigitsOf(base, Digits(base, v))
  {
    DigitsAreDigits(base, v);
    var start := |buf| - length;
    assert length > 0 ==> buf[start..][0] == buf[start];
  }

  lemma {:induction false} LeadingIs<T>(s: seq<T>, x: T, n: nat)
    requires n <= |s| && (forall k :: 0 <= k < n ==> s[k] == x) && (n < |s| ==> s[n] != x)
    ensures Leading(s, x) == n
  {
  }

  lemma PrefixFits(base: nat, s: seq<nat>, p: nat)
    requires base > 0 && DigitsOf(base, s) && p <= |s|
    ensures 0 <= Num(base, s[..p]) < Pow(base, |s|)
  {
    NumBound(base, s[..p]);
    PowGrows(base, p, |s|);
  }

  // ----- Decoding -----

  datatype Option<T> = None | Some(value: T)

  /** The first place from `p` on that is not a space, or that is one. */
  function Skip(s: string, p: nat, spaces: bool): (q: nat)
    requires p <= |s|
    ensures p <= q <= |s| && (forall k :: p <= k < q ==> IsSpace(s[k]) == spaces) && (q < |s| ==> IsSpace(s[q]) != spaces)
    decreases |s| - p
  {
    if p < |s| && IsSpace(s[p]) == spaces then Skip(s, p + 1, spaces) else p
  }

  /** The digits of a text; characters outside the alphabet count as zero. */
  function Values(t: string): (ds: seq<nat>)
    ensures |ds| == |t| && DigitsOf(58, ds)
  {
    seq(|t|, k requires 0 <= k < |t| => if DigitOf(t[k]) < 0 then 0 else DigitOf(t[k]))
  }

  predicate InAlphabet(t: string) {
    forall k :: 0 <= k < |t| ==> DigitOf(t[k]) >= 0
  }

  /** One word of base 58 characters, with spaces around it, in a string without a NUL. */
  predicate WellFormed(s: string) {
    var a := Skip(s, 0, true);
    var b := Skip(s, a, false);
    '\0' !in s && InAlphabet(s[a..b]) && Skip(s, b, true) == |s|
  }

  function Word(s: string): string {
    var a := Skip(s, 0, true);
    s[a..Skip(s, a, false)]
  }

  /** The bytes of a word: leading ones become zero bytes, the rest is one number. */
  function Bytes(w: string): seq<nat> {
    Repeat(0, Leading(Values(w), 0)) + Digits(256, Num(58, Values(w)))
  }

  function Decoded(s: string, maxLength: nat): Option<seq<nat>> {
    if WellFormed(s) && |Bytes(Word(s))| <= maxLength then Some(Bytes(Word(s))) else None
  }

  lemma {:induction false} DigitsMonotone(base: nat, x: nat, y: nat)
    requires base >= 2 && x <= y
    ensures |Digits(base, x)| <= |Digits(base, y)|
    decreases y
  {
    if x > 0 {
      DivMonotone(x, y, base);
      DivShrinks(y, base);
      DigitsMonotone(base, x / base, y / base);
    }
  }

  lemma DivShrinks(y: nat, d: nat)
    requires y > 0 && d >= 2
    ensures 0 <= y / d < y
  {
    DivMod(y, d);
    MulGrows(2, d, y / d);
  }

  lemma DivMonotone(x: nat, y: nat, d: nat)
    requires x <= y && d > 0
    ensures x / d <= y / d
  {
    DivMod(x, d);
    DivMod(y, d);
    if x / d > y / d {
      MulGrows(y / d + 1, x / d, d);
      Distribute(y / d, 1, d);
      assert false;
    }
  }

  lemma {:induction false} NumMonotone(base: nat, s: seq<nat>, p: nat)
    requires base > 0 && DigitsOf(base, s) && p <= |s|
    ensures 0 <= Num(base, s[..p]) <= Num(base, s)
  {
    if p == |s| {
      assert s[..p] == s;
      NumBound(base, s);
    } else {
      var n := |s| - 1;
      NumMonotone(base, s[..n], p);
      assert s[..n][..p] == s[..p];
      MulGrows(1, base, Num(base, s[..n]));
    }
  }

  /** A word is at least as long in bytes as what its first characters show. */
  lemma AtLeast(w: string, zeroes: nat, p: nat)
    requires zeroes <= p <= |w| && (forall k :: 0 <= k < zeroes ==> w[k] == '1')
    ensures zeroes + |Digits(256, Num(58, Values(w[zeroes..p])))| <= |Bytes(w)|
  {
    var ds := Values(w);
    assert Leading(ds, 0) >= zeroes;
    assert Values(w[zeroes..p]) == ds[zeroes..p];
    SkipLeading(58, ds[..p], zeroes);
    assert ds[..p][zeroes..] == ds[zeroes..p];
    NumMonotone(58, ds, p);
    DigitsMonotone(256, Num(58, ds[..p]), Num(58, ds));
  }

  lemma WordStarts(s: string, p: nat)
    requires p <= |s| && (forall k :: 0 <= k < p ==> IsSpace(s[k])) && (p < |s| ==> !IsSpace(s[p]))
    ensures Skip(s, 0, true) == p
  {
  }

  lemma WordReaches(s: string, a: nat, p: nat)
    requires a <= p <= |s| && a == Skip(s, 0, true) && (forall k :: a <= k < p ==> !IsSpace(s[k]))
    ensures p <= Skip(s, a, false) && |Word(s)| == Skip(s, a, false) - a && s[a..p] == Word(s)[..p - a]
    ensures p == |s| || IsSpace(s[p]) ==> p == Skip(s, a, false) && s[a..p] == Word(s)
  {
    hide IsSpace, Skip;
    var q := Skip(s, a, false);
    assert Word(s) == s[a..q];
    assert s[a..q][..p - a] == s[a..p];
  }

  method DecodeBase58(s: string, maxLength: nat) returns (r: Option<seq<nat>>)
    ensures r == Decoded(s, maxLength)
  {
    if '\0' in s {
      return None;
    }
    hide Num, Digits, Pow, Holds, Skip, Leading, Values, Bytes, InAlphabet, DigitOf;
    var p := 0;
    while p < |s| && IsSpace(s[p])
      invariant 0 <= p <= |s| && forall k :: 0 <= k < p ==> IsSpace(s[k])
    {
      p := p + 1;
    }
    WordStarts(s, p);
    var a, zeroes := p, 0;
    while p < |s| && s[p] == '1'
      invariant a <= p <= |s| && zeroes == p - a <= maxLength
      invariant forall k :: a <= k < p ==> s[k] == '1'
    {
      zeroes := zeroes + 1;
      p := p + 1;
      if zeroes > maxLength {
        TooLong(s, a, p, p, maxLength);
        return None;
      }
    }
    r := DecodeRest(s, a, p, maxLength);
  }

  /** The characters from `a` to `start` are ones, and those up to `p` are digits of the word. */
  ghost predicate Scanned(s: string, a: nat, start: nat, p: nat) {
    && a <= start <= p <= |s| && a == Skip(s, 0, true)
    && (forall k :: a <= k < start ==> s[k] == '1')
    && (forall k :: a <= k < p ==> !IsSpace(s[k]))
    && (forall k :: start <= k < p ==> DigitOf(s[k]) >= 0)
  }

  lemma ScannedNext(s: string, a: nat, start: nat, p: nat)
    requires Scanned(s, a, start, p) && p < |s| && !IsSpace(s[p]) && DigitOf(s[p]) != -1
    ensures Scanned(s, a, start, p + 1)
  {
  }

  /** From the first character that is not a one. */
  method DecodeRest(s: string, a: nat, start: nat, maxLength: nat) returns (r: Option<seq<nat>>)
    requires '\0' !in s && Scanned(s, a, start, start) && a <= start <= |s| && (start < |s| ==> s[start] != '1')
    requires start - a <= maxLength
    ensures r == Decoded(s, maxLength)
  {
    hide *;
    var ok, end, digits := ReadDigits(s, a, start, maxLength);
    if !ok {
      return None;
    }
    var p := end;
    while p < |s| && IsSpace(s[p])
      invariant end <= p <= |s| && forall k :: end <= k < p ==> IsSpace(s[k])
    {
      p := p + 1;
    }
    DecodeEnds(s, a, start, end, p, |digits|, maxLength);
    if p != |s| {
      return None;
    }
    return Some(Repeat(0, start - a) + digits);
  }

  method ReadDigits(s: string, a: nat, start: nat, maxLength: nat) returns (ok: bool, p: nat, digits: seq<nat>)
    requires Scanned(s, a, start, start) && a <= start <= |s| && start - a <= maxLength
    ensures !ok ==> Decoded(s, maxLength) == None
    ensures ok ==> start <= p <= |s| && Scanned(s, a, start, p) && (p < |s| ==> IsSpace(s[p]))
    ensures ok ==> digits == Digits(256, Read(s, start, p)) && start - a + |digits| <= maxLength
  {
    var size := BufferSize(|s| - start);
    hide *;
    var b256 := NewBuffer(size, 256);
    NothingRead(s, start);
    var length: nat := 0;
    p := start;
    while p < |s| && !IsSpace(s[p])
      invariant start <= p <= |s| && Scanned(s, a, start, p)
      invariant Holds(b256[..], 256, length, Read(s, start, p))
      invariant start - a + length <= maxLength
    {
      ok, length := ReadOne(s, a, start, p, b256, length, maxLength);
      if !ok {
        return false, p, [];
      }
      p := p + 1;
    }
    HoldsDigits(b256[..], 256, length, Read(s, start, p));
    ok, digits := true, b256[..][size - length..];
  }

  /** Add one character to the number in the buffer. */
  method ReadOne(s: string, a: nat, start: nat, p: nat, b256: array<nat>, length: nat, maxLength: nat)
    returns (ok: bool, newLength: nat)
    requires a <= start <= p < |s| && Scanned(s, a, start, p) && !IsSpace(s[p])
    requires b256.Length == BufferSize(|s| - start) && Holds(b256[..], 256, length, Read(s, start, p))
    modifies b256
    ensures !ok ==> Decoded(s, maxLength) == None
    ensures ok ==> Scanned(s, a, start, p + 1) && Holds(b256[..], 256, newLength, Read(s, start, p + 1))
    ensures ok ==> start - a + newLength <= maxLength
  {
    hide *;
    var carry := DigitOf(s[p]);
    if carry == -1 {
      BadCharacter(s, a, start, p, maxLength);
      return false, length;
    }
    ReadNext(s, start, p);
    ScannedNext(s, a, start, p);
    newLength := PushDigit(b256, length, 58, 256, carry, Read(s, start, p));
    HoldsDigits(b256[..], 256, newLength, Read(s, start, p + 1));
    ok := newLength + (start - a) <= maxLength;
    if !ok {
      TooLong(s, a, start, p + 1, maxLength);
    }
  }

  /** The number that the characters from `start` to `p` stand for. */
  ghost function Read(s: string, start: nat, p: nat): int
    requires start <= p <= |s|
  {
    Num(58, Values(s[start..p]))
  }

  function BufferSize(n: nat): nat {
    n * 733 / 1000 + 1
  }

  lemma NothingRead(s: string, start: nat)
    requires start <= |s|
    ensures Read(s, start, start) == 0
  {
  }

  lemma ReadNext(s: string, start: nat, p: nat)
    requires start <= p < |s| && DigitOf(s[p]) != -1
    ensures DigitOf(s[p]) >= 0 && Read(s, start, p) >= 0
    ensures Read(s, start, p + 1) == Read(s, start, p) * 58 + DigitOf(s[p]) < Pow(256, BufferSize(|s| - start))
  {
    hide Pow, Num;
    ReadFits(s, start, p);
    ReadFits(s, start, p + 1);
    ValuesNext(s, start, p);
  }

  lemma BadCharacter(s: string, a: nat, start: nat, p: nat, maxLength: nat)
    requires Scanned(s, a, start, p) && p < |s| && !IsSpace(s[p]) && DigitOf(s[p]) == -1
    ensures Decoded(s, maxLength) == None
  {
    WordReaches(s, a, p + 1);
    assert s[a..Skip(s, a, false)][p - a] == s[p];
  }

  lemma ValuesNext(s: string, start: nat, p: nat)
    requires start <= p < |s| && DigitOf(s[p]) != -1
    ensures DigitOf(s[p]) >= 0
    ensures Num(58, Values(s[start..p + 1])) == Num(58, Values(s[start..p])) * 58 + DigitOf(s[p])
  {
    assert Values(s[start..p + 1]) == Values(s[start..p]) + [DigitOf(s[p])];
    NumNext(58, Values(s[start..p]), DigitOf(s[p]));
  }

  lemma ReadFits(s: string, start: nat, p: nat)
    requires start <= p <= |s|
    ensures 0 <= Num(58, Values(s[start..p])) < Pow(256, (|s| - start) * 733 / 1000 + 1)
  {
    hide Pow, Num;
    NumBound(58, Values(s[start..p]));
    PowGrows(58, p - start, |s| - start);
    DecodeSize(|s| - start);
  }

  lemma HoldsDigits(buf: seq<nat>, base: nat, length: nat, v: int)
    requires base >= 2 && Holds(buf, base, length, v)
    ensures length <= |buf| && buf[|buf| - length..] == Digits(base, v) && |Digits(base, v)| == length
  {
  }

  lemma DecodeEnds(s: string, a: nat, start: nat, end: nat, p: nat, length: nat, maxLength: nat)
    requires '\0' !in s && Scanned(s, a, start, end) && a <= start <= end <= p <= |s| && (start < |s| ==> s[start] != '1')
    requires (forall k :: end <= k < p ==> IsSpace(s[k])) && (p < |s| ==> !IsSpace(s[p]))
    requires (end < |s| ==> IsSpace(s[end])) && length == |Digits(256, Read(s, start, end))|
    requires start - a + length <= maxLength
    ensures Decoded(s, maxLength) ==
            if p == |s| then Some(Repeat(0, start - a) + Digits(256, Read(s, start, end))) else None
  {
    hide Skip, DigitOf, IsSpace, Digits, Num, Values, Word, WellFormed, Decoded, Bytes;
    WordReaches(s, a, end);
    WordEnds(s, a, start, end, p);
    WordBytes(s, a, start, end);
    DecodedIs(s, maxLength);
  }

  lemma DecodedIs(s: string, maxLength: nat)
    ensures Decoded(s, maxLength) == if WellFormed(s) && |Bytes(Word(s))| <= maxLength then Some(Bytes(Word(s))) else None
  {
  }

  lemma WordEnds(s: string, a: nat, start: nat, end: nat, p: nat)
    requires '\0' !in s && a <= start <= end <= p <= |s| && a == Skip(s, 0, true) && end == Skip(s, a, false)
    requires (forall k :: a <= k < start ==> s[k] == '1') && (forall k :: start <= k < end ==> DigitOf(s[k]) >= 0)
    requires (forall k :: end <= k < p ==> IsSpace(s[k])) && (p < |s| ==> !IsSpace(s[p]))
    ensures WellFormed(s) <==> p == |s|
  {
    assert Skip(s, end, true) == p;
    assert DigitOf('1') == 0;
    hide Skip;
    assert InAlphabet(s[a..end]);
  }

  lemma WordBytes(s: string, a: nat, start: nat, end: nat)
    requires a <= start <= end <= |s| && (forall k :: a <= k < start ==> s[k] == '1')
    requires (start < |s| ==> s[start] != '1') && (forall k :: start <= k < end ==> DigitOf(s[k]) >= 0)
    ensures Bytes(s[a..end]) == Repeat(0, start - a) + Digits(256, Num(58, Values(s[start..end])))
  {
    var w, zeroes := s[a..end], start - a;
    var ds := Values(w);
    assert w[zeroes..] == s[start..end] && ds[zeroes..] == Values(w[zeroes..]);
    if zeroes < |ds| {
      NotOne(s[start]);
    }
    LeadingIs(ds, 0, zeroes);
    hide DigitOf, Num, Digits, Leading, Values;
    SkipLeading(58, ds, zeroes);
  }

  lemma NotOne(c: char)
    ensures DigitOf(c) == 0 <==> c == '1'
  {
  }

  lemma TooLong(s: string, a: nat, start: nat, p: nat, maxLength: nat)
    requires Scanned(s, a, start, p) && a <= start <= p <= |s|
    requires start - a + |Digits(256, Read(s, start, p))| > maxLength
    ensures Decoded(s, maxLength) == None
  {
    hide Skip, DigitOf, IsSpace, Digits, Num, Values, Word, WellFormed, Decoded, Bytes;
    var w, zeroes := Word(s), start - a;
    WordReaches(s, a, p);
    assert w[zeroes..p - a] == s[start..p];
    assert forall k :: 0 <= k < zeroes ==> w[k] == w[..p - a][k] == s[a + k];
    AtLeast(w, zeroes, p - a);
    DecodedIs(s, maxLength);
  }

  // ----- The round trips -----

  /** A list of digits is its leading zeros and the digits of its number. */
  lemma DigitsRest(base: nat, ds: seq<nat>)
    requires base >= 2 && DigitsOf(base, ds)
    ensures ds == Repeat(0, Leading(ds, 0)) + Digits(base, Num(base, ds))
  {
    hide *;
    var z := Leading(ds, 0);
    LeadingSplits(ds);
    SkipLeading(base, ds, z);
    DigitsTail(base, ds, z);
    DigitsOfNum(base, ds[z..]);
  }

  lemma LeadingSplits(ds: seq<nat>)
    ensures var z := Leading(ds, 0);
            && z <= |ds| && ds == Repeat(0, z) + ds[z..] && (ds[z..] != [] ==> ds[z..][0] != 0)
            && forall k :: 0 <= k < z ==> ds[k] == 0
  {
    hide *;
    ZeroRun(ds, Leading(ds, 0));
  }

  lemma ZeroRun(ds: seq<nat>, z: nat)
    requires z <= |ds| && forall k :: 0 <= k < z ==> ds[k] == 0
    ensures ds == Repeat(0, z) + ds[z..]
  {
    hide *;
    forall k | 0 <= k < |ds| ensures ds[k] == (Repeat(0, z) + ds[z..])[k] {
      if k < z {
        assert Repeat(0, z)[k] == 0;
      }
    }
  }

  lemma DigitsTail(base: nat, ds: seq<nat>, z: nat)
    requires DigitsOf(base, ds) && z <= |ds|
    ensures DigitsOf(base, ds[z..])
  {
  }

  /** Zeros in front change neither the number nor what follows them. */
  lemma ZerosInFront(base: nat, z: nat, v: nat)
    requires base >= 2
    ensures var ds := Repeat(0, z) + Digits(base, v);
            DigitsOf(base, ds) && Leading(ds, 0) == z && Num(base, ds) == v
  {
    var ds := Repeat(0, z) + Digits(base, v);
    DigitsAreDigits(base, v);
    LeadingIs(ds, 0, z);
    SkipLeading(base, ds, z);
    assert ds[z..] == Digits(base, v);
    NumOfDigits(base, v);
  }

  lemma {:induction false} ValuesOfText(ds: seq<nat>)
    requires DigitsOf(58, ds)
    ensures |Text(ds)| == |ds| && Values(Text(ds)) == ds && InAlphabet(Text(ds)) && NoSpaces(Text(ds))
  {
    if ds != [] {
      var n := |ds| - 1;
      ValuesOfText(ds[..n]);
      AlphabetIsInverse(ds[n], CharOf(ds[n]));
      var t, u := Text(ds), Text(ds[..n]);
      hide DigitOf, CharOf, IsSpace;
      assert forall k :: 0 <= k < n ==> t[k] == u[k] && Values(u)[k] == ds[..n][k] && DigitOf(u[k]) >= 0 && !IsSpace(u[k]);
    }
  }

  ghost predicate NoSpaces(s: string) {
    forall k :: 0 <= k < |s| ==> !IsSpace(s[k]) && s[k] != '\0'
  }

  lemma {:induction false} TextOfValues(t: string)
    requires InAlphabet(t)
    ensures Text(Values(t)) == t
  {
    if t != [] {
      var n := |t| - 1;
      TextOfValues(t[..n]);
      assert Values(t)[..n] == Values(t[..n]);
      AlphabetIsInverse(DigitOf(t[n]), t[n]);
      assert t == t[..n] + [t[n]];
    }
  }

  /** A string without spaces is one word. */
  lemma WholeWord(s: string)
    requires NoSpaces(s)
    ensures Word(s) == s && (WellFormed(s) <==> InAlphabet(s))
  {
    assert Skip(s, 0, true) == 0 && Skip(s, 0, false) == |s| && Skip(s, |s|, true) == |s|;
    assert s[0..|s|] == s;
  }

  lemma {:induction false} ValuesJoin(z: nat, t: string)
    ensures Values(Repeat('1', z) + t) == Repeat(0, z) + Values(t)
    ensures InAlphabet(t) ==> InAlphabet(Repeat('1', z) + t)
    ensures NoSpaces(t) ==> NoSpaces(Repeat('1', z) + t)
  {
    var s := Repeat('1', z) + t;
    NotOne('1');
    hide DigitOf;
    assert forall k :: 0 <= k < |s| ==> s[k] == if k < z then '1' else t[k - z];
  }

  /** Decoding what was encoded gives the bytes back, leading zeros included. */
  lemma DecodeEncode(b: seq<nat>, maxLength: nat)
    requires DigitsOf(256, b) && |b| <= maxLength
    ensures Decoded(Encoded(b), maxLength) == Some(b)
  {
    hide *;
    var z, v := Leading(b, 0), Num(256, b);
    NumBound(256, b);
    DigitsRest(256, b);
    DigitsAreDigits(58, v);
    EncodedIs(b);
    ValuesOfText(Digits(58, v));
    ValuesJoin(z, Text(Digits(58, v)));
    ZerosInFront(58, z, v);
    WholeWord(Encoded(b));
    BytesIs(Encoded(b));
    DecodedIs(Encoded(b), maxLength);
  }

  lemma EncodedIs(b: seq<nat>)
    ensures DigitsOf(58, Digits(58, Num(256, b)))
    ensures Encoded(b) == Repeat('1', Leading(b, 0)) + Text(Digits(58, Num(256, b)))
  {
    DigitsAreDigits(58, Num(256, b));
  }

  lemma BytesIs(w: string)
    ensures Bytes(w) == Repeat(0, Leading(Values(w), 0)) + Digits(256, Num(58, Values(w)))
  {
  }

  /** Encoding what was decoded gives the string back, if it had no spaces. */
  lemma EncodeDecode(s: string, maxLength: nat)
    requires NoSpaces(s) && Decoded(s, maxLength).Some?
    ensures DigitsOf(256, Decoded(s, maxLength).value)
    ensures Encoded(Decoded(s, maxLength).value) == s
  {
    hide *;
    DecodedIs(s, maxLength);
    WholeWord(s);
    BytesIs(s);
    var ds := Values(s);
    var z, v := Leading(ds, 0), Num(58, ds);
    NumBound(58, ds);
    ZerosInFront(256, z, v);
    EncodedIs(Bytes(s));
    DigitsRest(58, ds);
    OnesAndRest(s, z);
    TextOfValues(s[z..]);
    assert ds[z..] == Digits(58, v);
  }

  lemma OnesAndRest(s: string, z: nat)
    requires InAlphabet(s) && z == Leading(Values(s), 0)
    ensures z <= |s| && s == Repeat('1', z) + s[z..] && Values(s[z..]) == Values(s)[z..] && InAlphabet(s[z..])
  {
    forall k | 0 <= k < z ensures s[k] == '1' {
      assert Values(s)[k] == 0;
      NotOne(s[k]);
    }
    hide DigitOf;
    assert s[..z] == Repeat('1', z);
    assert s == s[..z] + s[z..];
  }
}
