/**
 The canonical text of a JSON value that asset contracts are hashed over
 (src/assetcontract.cpp): keys in byte order, no spaces, and the escapes of JSON.stringify.
 */
module CanonicalJson {

  datatype Json =
    | Null
    | Bool(b: bool)
    | Num(text: string)
    | Str(s: string)
    | Arr(items: seq<Json>)
    | Obj(fields: seq<Field>)

  datatype Field = Field(key: string, value: Json)

  // ----- Strings -----

  function HexDigit(n: nat): char
    requires n < 16
  {
    if n < 10 then ('0' as int + n) as char else ('a' as int + n - 10) as char
  }

  function EscapeChar(c: char): string {
    if c == '"' then "\\\""
    else if c == '\\' then "\\\\"
    else if c as int == 8 then "\\b"
    else if c as int == 9 then "\\t"
    else if c as int == 10 then "\\n"
    else if c as int == 12 then "\\f"
    else if c as int == 13 then "\\r"
    else if c as int < 32 then "\\u00" + [HexDigit(c as int / 16), HexDigit(c as int % 16)]
    else [c]
  }

  function Escape(s: string): string {
    if s == "" then "" else EscapeChar(s[0]) + Escape(s[1..])
  }

  function Quoted(s: string): string {
    "\"" + Escape(s) + "\""
  }

  /** The code of a character: how its escape starts. */
  lemma EscapeStarts(c: char)
    ensures var e := EscapeChar(c);
            && (|e| == 1 || |e| == 2 || |e| == 6) && e[0] != '"'
            && (|e| == 1 ==> e == [c] && c != '\\')
            && (|e| >= 2 ==> e[0] == '\\')
            && (|e| == 6 <==> |e| >= 2 && e[1] == 'u')
            && (|e| == 6 ==> e[4] == HexDigit(c as int / 16) && e[5] == HexDigit(c as int % 16) && c as int < 32)
            && (|e| == 2 ==> e[1] == ShortCode(c))
  {
  }

  function ShortCode(c: char): char {
    if c as int == 8 then 'b' else if c as int == 9 then 't' else if c as int == 10 then 'n'
    else if c as int == 12 then 'f' else if c as int == 13 then 'r' else c
  }

  /** No escape is the beginning of another. */
  lemma EscapeCharUnique(a: char, b: char, u: string, v: string)
    requires EscapeChar(a) + u == EscapeChar(b) + v
    ensures a == b && u == v
  {
    var x, y := EscapeChar(a), EscapeChar(b);
    EscapeStarts(a);
    EscapeStarts(b);
    assert (x + u)[0] == x[0] && (y + v)[0] == y[0];
    if |x| >= 2 && |y| >= 2 {
      assert (x + u)[1] == x[1] && (y + v)[1] == y[1];
    }
    assert |x| == |y|;
    assert x == (x + u)[..|x|] && y == (y + v)[..|x|];
    assert u == (x + u)[|x|..] && v == (y + v)[|x|..];
    SameEscape(a, b);
  }

  lemma SameEscape(a: char, b: char)
    requires EscapeChar(a) == EscapeChar(b)
    ensures a == b
  {
    EscapeStarts(a);
    EscapeStarts(b);
    var n := |EscapeChar(a)|;
    if n == 6 {
      HexUnique(a as int / 16, b as int / 16);
      HexUnique(a as int % 16, b as int % 16);
    }
  }

  lemma HexUnique(m: nat, n: nat)
    requires m < 16 && n < 16 && HexDigit(m) == HexDigit(n)
    ensures m == n
  {
  }

  lemma EscapeEnds(x: string, s: string)
    ensures (Escape(x) + "\"" + s)[0] == '"' <==> x == ""
  {
    if x != "" {
      EscapeStarts(x[0]);
      assert (Escape(x) + "\"" + s)[0] == EscapeChar(x[0])[0];
    }
  }

  lemma {:induction false} EscapeUnique(x: string, y: string, s: string, t: string)
    requires Escape(x) + "\"" + s == Escape(y) + "\"" + t
    ensures x == y && s == t
  {
    hide EscapeChar;
    var l, r := Escape(x) + "\"" + s, Escape(y) + "\"" + t;
    EscapeEnds(x, s);
    EscapeEnds(y, t);
    if x == "" {
      assert s == l[1..] && t == r[1..];
    } else {
      var u, v := Escape(x[1..]) + "\"" + s, Escape(y[1..]) + "\"" + t;
      assert l == EscapeChar(x[0]) + u && r == EscapeChar(y[0]) + v;
      EscapeCharUnique(x[0], y[0], u, v);
      EscapeUnique(x[1..], y[1..], s, t);
    }
  }

  lemma QuotedUnique(x: string, y: string, s: string, t: string)
    requires Quoted(x) + s == Quoted(y) + t
    ensures x == y && s == t
  {
    hide Escape;
    assert (Quoted(x) + s)[1..] == Escape(x) + "\"" + s;
    assert (Quoted(y) + t)[1..] == Escape(y) + "\"" + t;
    EscapeUnique(x, y, s, t);
  }

  // ----- Reading strings back -----

  datatype Option<T> = None | Some(value: T)

  /** The value of a hexadecimal digit. */
  function HexValue(c: char): int {
    if '0' <= c <= '9' then c as int - '0' as int
    else if 'a' <= c <= 'f' then c as int - 'a' as int + 10
    else if 'A' <= c <= 'F' then c as int - 'A' as int + 10
    else -1
  }

  /** What a reader makes of the characters between the quotes: section 7 of RFC 8259. */
  function Unescaped(t: string): Option<string> {
    if t == "" then Some("") else
    if t[0] == '"' || t[0] as int < 32 then None else
    if t[0] != '\\' then Then(t[0], Unescaped(t[1..])) else
    if |t| < 2 then None else
    match t[1]
    case '"' => Then('"', Unescaped(t[2..]))
    case '\\' => Then('\\', Unescaped(t[2..]))
    case '/' => Then('/', Unescaped(t[2..]))
    case 'b' => Then(8 as char, Unescaped(t[2..]))
    case 'f' => Then(12 as char, Unescaped(t[2..]))
    case 'n' => Then(10 as char, Unescaped(t[2..]))
    case 'r' => Then(13 as char, Unescaped(t[2..]))
    case 't' => Then(9 as char, Unescaped(t[2..]))
    case 'u' =>
      if |t| < 6 then None else
      var a, b, c, d := HexValue(t[2]), HexValue(t[3]), HexValue(t[4]), HexValue(t[5]);
      if a < 0 || b < 0 || c < 0 || d < 0 then None else
      var code := ((a * 16 + b) * 16 + c) * 16 + d;
      if 0xD800 <= code < 0xE000 then None else Then(code as char, Unescaped(t[6..]))
    case _ => None
  }

  function Then(c: char, rest: Option<string>): Option<string> {
    if rest.None? then None else Some([c] + rest.value)
  }

  /** A reader gets back the string that was escaped. */
  lemma {:induction false} UnescapeEscape(s: string)
    ensures Unescaped(Escape(s)) == Some(s)
  {
    if s != "" {
      UnescapeEscape(s[1..]);
      var e, rest := EscapeChar(s[0]), Escape(s[1..]);
      UnescapeChar(s[0], rest);
      assert s == [s[0]] + s[1..];
    }
  }

  lemma UnescapeChar(c: char, rest: string)
    ensures Unescaped(EscapeChar(c) + rest) == Then(c, Unescaped(rest))
  {
    var t := EscapeChar(c) + rest;
    assert t[|EscapeChar(c)|..] == rest;
    if |EscapeChar(c)| == 6 {
      HexBack(c as int / 16);
      HexBack(c as int % 16);
    }
  }

  lemma HexBack(n: nat)
    requires n < 16
    ensures HexValue(HexDigit(n)) == n
  {
  }

  // ----- Keys in order -----

  /** Byte order. */
  predicate AtMost(a: string, b: string) {
    a == "" || (b != "" && (a[0] < b[0] || (a[0] == b[0] && AtMost(a[1..], b[1..]))))
  }

  /** The first place where two strings differ decides, and a beginning comes before the whole. */
  lemma {:induction false} FirstDifferenceDecides(a: string, b: string)
    ensures AtMost(a, b) <==> a <= b || exists i :: 0 <= i < |a| && i < |b| && a[..i] == b[..i] && a[i] < b[i]
  {
    if a != "" && b != "" {
      var x, y := a[1..], b[1..];
      assert a == [a[0]] + x && b == [b[0]] + y;
      FirstDifferenceDecides(x, y);
      if a[0] == b[0] {
        assert x <= y <==> a <= b;
        if j :| 0 <= j < |x| && j < |y| && x[..j] == y[..j] && x[j] < y[j] {
          assert a[..j + 1] == [a[0]] + x[..j] && b[..j + 1] == [b[0]] + y[..j];
          assert a[..j + 1] == b[..j + 1] && a[j + 1] < b[j + 1];
        }
        if i :| 0 <= i < |a| && i < |b| && a[..i] == b[..i] && a[i] < b[i] {
          assert i > 0;
          assert x[..i - 1] == a[..i][1..] && y[..i - 1] == b[..i][1..];
          assert x[..i - 1] == y[..i - 1] && x[i - 1] < y[i - 1];
        }
      } else {
        assert a[..0] == b[..0];
        forall i | 0 < i < |a| && i < |b| ensures a[..i] != b[..i] {
          assert a[..i][0] != b[..i][0];
        }
      }
    }
  }

  lemma {:induction false} OrderTotal(a: string, b: string)
    ensures AtMost(a, b) || AtMost(b, a)
    ensures AtMost(a, b) && AtMost(b, a) ==> a == b
    ensures AtMost(a, a)
  {
    if a != "" {
      OrderTotal(a[1..], if b == "" then "" else b[1..]);
      if b != "" && a[0] == b[0] && a[1..] == b[1..] {
        assert a == [a[0]] + a[1..] && b == [b[0]] + b[1..];
      }
    }
  }

  lemma {:induction false} OrderTrans(a: string, b: string, c: string)
    requires AtMost(a, b) && AtMost(b, c)
    ensures AtMost(a, c)
  {
    if a != "" && b != "" && c != "" && a[0] == b[0] == c[0] {
      OrderTrans(a[1..], b[1..], c[1..]);
    }
  }

  function Insert(k: string, ks: seq<string>): seq<string> {
    if ks == [] then [k] else if AtMost(k, ks[0]) then [k] + ks else [ks[0]] + Insert(k, ks[1..])
  }

  function Sort(ks: seq<string>): seq<string> {
    if ks == [] then [] else Insert(ks[0], Sort(ks[1..]))
  }

  ghost predicate Sorted(ks: seq<string>) {
    forall i, j :: 0 <= i < j < |ks| ==> AtMost(ks[i], ks[j])
  }

  ghost predicate Distinct(ks: seq<string>) {
    forall i, j :: 0 <= i < j < |ks| ==> ks[i] != ks[j]
  }

  ghost predicate BeforeAll(k: string, ks: seq<string>) {
    forall j :: 0 <= j < |ks| ==> AtMost(k, ks[j])
  }

  lemma SortedFront(k: string, ks: seq<string>)
    requires Sorted(ks) && BeforeAll(k, ks)
    ensures Sorted([k] + ks)
  {
    hide AtMost;
  }

  lemma FirstBeforeAll(k: string, ks: seq<string>)
    requires Sorted(ks) && ks != [] && AtMost(k, ks[0])
    ensures BeforeAll(k, ks)
  {
    hide AtMost;
    forall j | 0 <= j < |ks| ensures AtMost(k, ks[j]) {
      if j > 0 {
        OrderTrans(k, ks[0], ks[j]);
      }
    }
  }

  lemma {:induction false} InsertBag(k: string, ks: seq<string>)
    ensures multiset(Insert(k, ks)) == multiset(ks) + multiset{k}
  {
    hide AtMost;
    if ks != [] {
      assert ks == [ks[0]] + ks[1..];
      InsertBag(k, ks[1..]);
    }
  }

  lemma {:induction false} InsertBefore(x: string, k: string, ks: seq<string>)
    requires BeforeAll(x, ks) && AtMost(x, k)
    ensures BeforeAll(x, Insert(k, ks))
  {
    hide AtMost;
    if ks != [] {
      InsertBefore(x, k, ks[1..]);
    }
  }

  lemma {:induction false} InsertSorted(k: string, ks: seq<string>)
    requires Sorted(ks)
    ensures Sorted(Insert(k, ks))
  {
    hide AtMost;
    if ks != [] {
      if AtMost(k, ks[0]) {
        FirstBeforeAll(k, ks);
        SortedFront(k, ks);
      } else {
        SortedTail(ks);
        InsertSorted(k, ks[1..]);
        OrderTotal(k, ks[0]);
        HeadBeforeTail(ks);
        InsertBefore(ks[0], k, ks[1..]);
        SortedFront(ks[0], Insert(k, ks[1..]));
      }
    }
  }

  lemma HeadBeforeTail(ks: seq<string>)
    requires Sorted(ks) && ks != []
    ensures BeforeAll(ks[0], ks[1..])
  {
  }

  lemma {:induction false} SortFacts(ks: seq<string>)
    ensures Sorted(Sort(ks)) && multiset(Sort(ks)) == multiset(ks)
  {
    if ks != [] {
      SortFacts(ks[1..]);
      InsertSorted(ks[0], Sort(ks[1..]));
      InsertBag(ks[0], Sort(ks[1..]));
      assert ks == [ks[0]] + ks[1..];
    }
  }

  /** The first of a sorted list comes before every member. */
  lemma HeadLeast(x: seq<string>, k: string)
    requires Sorted(x) && k in multiset(x)
    ensures x != [] && AtMost(x[0], k)
  {
    hide AtMost;
    OrderTotal(x[0], x[0]);
    assert k in x;
  }

  lemma MultisetTail(x: seq<string>)
    requires x != []
    ensures multiset(x[1..]) == multiset(x) - multiset{x[0]}
  {
    assert x == [x[0]] + x[1..];
  }

  lemma SortedTail(x: seq<string>)
    requires Sorted(x) && x != []
    ensures Sorted(x[1..])
  {
  }

  lemma {:induction false} SortedUnique(x: seq<string>, y: seq<string>)
    requires Sorted(x) && Sorted(y) && multiset(x) == multiset(y)
    ensures x == y
  {
    hide *;
    assert |x| == |multiset(x)| && |y| == |multiset(y)|;
    if x != [] {
      assert x[0] in multiset(x) && y[0] in multiset(y);
      HeadLeast(x, y[0]);
      HeadLeast(y, x[0]);
      OrderTotal(x[0], y[0]);
      MultisetTail(x);
      MultisetTail(y);
      SortedTail(x);
      SortedTail(y);
      SortedUnique(x[1..], y[1..]);
      assert x == [x[0]] + x[1..] && y == [y[0]] + y[1..];
    }
  }

  lemma {:induction false} DistinctOnce(ks: seq<string>, k: string)
    requires Distinct(ks)
    ensures multiset(ks)[k] == if k in ks then 1 else 0
  {
    if ks != [] {
      var n := |ks| - 1;
      DistinctOnce(ks[..n], k);
      assert ks == ks[..n] + [ks[n]];
    }
  }

  /** Lists of distinct keys that have the same members sort to the same list. */
  lemma SortCanonical(x: seq<string>, y: seq<string>)
    requires Distinct(x) && Distinct(y) && (forall k :: k in x <==> k in y)
    ensures Sort(x) == Sort(y)
  {
    forall k ensures multiset(x)[k] == multiset(y)[k] {
      DistinctOnce(x, k);
      DistinctOnce(y, k);
    }
    assert multiset(x) == multiset(y);
    SortFacts(x);
    SortFacts(y);
    SortedUnique(Sort(x), Sort(y));
  }

  lemma SortMembers(ks: seq<string>, k: string)
    ensures k in Sort(ks) <==> k in ks
  {
    SortFacts(ks);
    assert k in Sort(ks) <==> k in multiset(Sort(ks));
    assert k in ks <==> k in multiset(ks);
  }

  // ----- Values -----

  function Keys(fields: seq<Field>): (ks: seq<string>)
    ensures |ks| == |fields| && forall i :: 0 <= i < |fields| ==> ks[i] == fields[i].key
  {
    seq(|fields|, i requires 0 <= i < |fields| => fields[i].key)
  }

  /** The first field with a key. */
  function Find(fields: seq<Field>, k: string): (i: nat)
    requires k in Keys(fields)
    ensures i < |fields| && fields[i].key == k
  {
    if fields[0].key == k then 0 else
    assert Keys(fields[1..]) == Keys(fields)[1..];
    assert k in Keys(fields)[1..] by {
      var i :| 0 <= i < |fields| && Keys(fields)[i] == k;
      assert Keys(fields)[1..][i - 1] == k;
    }
    1 + Find(fields[1..], k)
  }

  ghost predicate AllKnown(fields: seq<Field>, keys: seq<string>) {
    forall k :: k in keys ==> k in Keys(fields)
  }

  function Canonical(v: Json): string
    decreases v, 0
  {
    match v
    case Null => "null"
    case Bool(b) => if b then "true" else "false"
    case Num(text) => text
    case Str(s) => Quoted(s)
    case Arr(items) => "[" + Elements(items, true)
    case Obj(fields) =>
      SortKnown(fields);
      "{" + Members(fields, Sort(Keys(fields)), true)
  }

  lemma SortKnown(fields: seq<Field>)
    ensures AllKnown(fields, Sort(Keys(fields)))
  {
    forall k | k in Sort(Keys(fields)) ensures k in Keys(fields) {
      SortMembers(Keys(fields), k);
    }
  }

  /** The elements of an array, up to its end; every one but the first has a comma before it. */
  function Elements(items: seq<Json>, first: bool): string
    decreases items, 0
  {
    if items == [] then "]" else
    (if first then "" else ",") + Canonical(items[0]) + Elements(items[1..], false)
  }

  function Members(fields: seq<Field>, keys: seq<string>, first: bool): string
    requires AllKnown(fields, keys)
    decreases fields, |keys|
  {
    if keys == [] then "}" else
    var k := keys[0];
    (if first then "" else ",") + Quoted(k) + ":" + Canonical(fields[Find(fields, k)].value) + Members(fields, keys[1..], false)
  }

  // ----- Canonical and injective -----

  /** A number starts with a digit or a minus sign and has no other characters than numbers have. */
  predicate NumChar(c: char) {
    '0' <= c <= '9' || c == '-' || c == '+' || c == '.' || c == 'e' || c == 'E'
  }

  predicate IsNumber(text: string) {
    text != "" && ('0' <= text[0] <= '9' || text[0] == '-') && forall i :: 0 <= i < |text| ==> NumChar(text[i])
  }

  /** Distinct keys and grammatical numbers at every level. */
  ghost predicate Proper(v: Json)
    decreases v
  {
    match v
    case Null => true
    case Bool(_) => true
    case Num(text) => IsNumber(text)
    case Str(_) => true
    case Arr(items) => forall i :: 0 <= i < |items| ==> Proper(items[i])
    case Obj(fields) => Distinct(Keys(fields)) && forall i :: 0 <= i < |fields| ==> Proper(fields[i].value)
  }

  /** Equal up to the order of keys, at every level. */
  ghost predicate Same(a: Json, b: Json)
    decreases a
  {
    match (a, b)
    case (Null, Null) => true
    case (Bool(x), Bool(y)) => x == y
    case (Num(x), Num(y)) => x == y
    case (Str(x), Str(y)) => x == y
    case (Arr(x), Arr(y)) => |x| == |y| && forall i :: 0 <= i < |x| ==> Same(x[i], y[i])
    case (Obj(x), Obj(y)) =>
      && (forall k :: k in Keys(x) <==> k in Keys(y))
      && (forall k :: k in Keys(x) && k in Keys(y) ==> Same(x[Find(x, k)].value, y[Find(y, k)].value))
    case _ => false
  }

  /** What may come after a value. */
  ghost predicate Stops(s: string) {
    s == "" || s[0] == ',' || s[0] == ']' || s[0] == '}'
  }

  /** The kind of a value shows in its first character. */
  function Kind(c: char): nat {
    if c == 'n' then 1 else if c == 't' then 2 else if c == 'f' then 3 else if c == '"' then 4
    else if c == '[' then 5 else if c == '{' then 6 else if '0' <= c <= '9' || c == '-' then 7 else 0
  }

  function KindOf(v: Json): nat {
    match v
    case Null => 1
    case Bool(b) => if b then 2 else 3
    case Num(_) => 7
    case Str(_) => 4
    case Arr(_) => 5
    case Obj(_) => 6
  }

  lemma FirstCharacter(v: Json, s: string)
    requires Proper(v)
    ensures Canonical(v) != "" && (Canonical(v) + s)[0] == Canonical(v)[0] && Kind(Canonical(v)[0]) == KindOf(v)
  {
    hide Escape, Elements, Members, Sort;
  }

  lemma NumberReaches(x: string, y: string, s: string, t: string)
    requires IsNumber(y) && Stops(s) && x + s == y + t
    ensures |x| >= |y|
  {
    assert forall i :: 0 <= i < |y| ==> (y + t)[i] == y[i];
    assert s != "" ==> (x + s)[|x|] == s[0];
  }

  /** A number ends where its characters end. */
  lemma NumberUnique(x: string, y: string, s: string, t: string)
    requires IsNumber(x) && IsNumber(y) && Stops(s) && Stops(t) && x + s == y + t
    ensures x == y && s == t
  {
    NumberReaches(x, y, s, t);
    NumberReaches(y, x, t, s);
    assert x == (x + s)[..|x|] && y == (y + t)[..|y|];
    assert s == (x + s)[|x|..] && t == (y + t)[|y|..];
  }

  lemma {:induction false} Unique(a: Json, b: Json, s: string, t: string)
    requires Proper(a) && Proper(b) && Stops(s) && Stops(t) && Canonical(a) + s == Canonical(b) + t
    ensures Same(a, b) && s == t
    decreases a, 0
  {
    hide *;
    SameKind(a, b, s, t);
    LeafText(a);
    LeafText(b);
    match a
    case Null =>
      SameLength(Canonical(a), s, Canonical(b), t);
    case Bool(_) =>
      SameLength(Canonical(a), s, Canonical(b), t);
    case Num(x) =>
      NumberUnique(x, b.text, s, t);
    case Str(x) =>
      QuotedUnique(x, b.s, s, t);
    case Arr(x) =>
      ArrayText(x, s);
      ArrayText(b.items, t);
      ElementsUnique(x, b.items, true, s, t);
      SameArrays(x, b.items);
    case Obj(x) =>
      ObjectUnique(x, b.fields, s, t);
  }

  lemma SameKind(a: Json, b: Json, s: string, t: string)
    requires Proper(a) && Proper(b) && Canonical(a) + s == Canonical(b) + t
    ensures a.Null? ==> b.Null?
    ensures a.Bool? ==> a == b
    ensures a.Num? ==> b.Num?
    ensures a.Str? ==> b.Str?
    ensures a.Arr? ==> b.Arr?
    ensures a.Obj? ==> b.Obj?
  {
    hide Canonical, Proper, Kind;
    FirstCharacter(a, s);
    FirstCharacter(b, t);
  }

  lemma LeafText(v: Json)
    ensures v.Num? ==> Canonical(v) == v.text && (Proper(v) <==> IsNumber(v.text))
    ensures v.Str? ==> Canonical(v) == Quoted(v.s)
    ensures !v.Arr? && !v.Obj? ==> Same(v, v)
  {
    hide Elements, Members, Sort, Find, Keys, Quoted, IsNumber;
  }

  lemma ArrayText(x: seq<Json>, s: string)
    ensures Canonical(Arr(x)) + s == "[" + (Elements(x, true) + s)
    ensures ("[" + (Elements(x, true) + s))[1..] == Elements(x, true) + s
    ensures Proper(Arr(x)) ==> AllProper(x)
  {
    hide Elements;
  }

  lemma SameArrays(x: seq<Json>, y: seq<Json>)
    requires |x| == |y| && forall i :: 0 <= i < |x| ==> Same(x[i], y[i])
    ensures Same(Arr(x), Arr(y))
  {
  }

  lemma SameLength(x: string, s: string, y: string, t: string)
    requires x + s == y + t && |x| == |y|
    ensures s == t
  {
    assert s == (x + s)[|x|..] && t == (y + t)[|y|..];
  }

  ghost predicate AllProper(items: seq<Json>) {
    forall i :: 0 <= i < |items| ==> Proper(items[i])
  }

  /** Whether an array is at its end shows in the next character, and so does what comes after a value. */
  lemma ElementsStart(x: seq<Json>, first: bool, s: string)
    requires AllProper(x)
    ensures var e := Elements(x, first) + s; e != "" && (e[0] == ']' <==> x == []) && (!first ==> Stops(e))
    ensures x != [] ==>
      Elements(x, first) + s == (if first then "" else ",") + (Canonical(x[0]) + (Elements(x[1..], false) + s))
  {
    if x != [] {
      var v, rest := Canonical(x[0]), Elements(x[1..], false);
      FirstCharacter(x[0], rest + s);
      assert Elements(x, first) == (if first then "" else ",") + v + rest;
      hide *;
      JoinFour(if first then "" else ",", v, rest, s);
    }
  }

  lemma JoinFour(a: string, b: string, c: string, d: string)
    ensures a + b + c + d == a + (b + (c + d))
  {
  }

  lemma {:induction false} ElementsUnique(x: seq<Json>, y: seq<Json>, first: bool, s: string, t: string)
    requires AllProper(x) && AllProper(y) && Elements(x, first) + s == Elements(y, first) + t
    ensures |x| == |y| && (forall i :: 0 <= i < |x| ==> Same(x[i], y[i])) && s == t
    decreases x, 0
  {
    hide Canonical, Same, Proper;
    ElementsStart(x, first, s);
    ElementsStart(y, first, t);
    if x == [] {
      SameLength("]", s, "]", t);
    } else {
      var u, v := Elements(x[1..], false) + s, Elements(y[1..], false) + t;
      ElementsStart(x[1..], false, s);
      ElementsStart(y[1..], false, t);
      AfterComma(first, Canonical(x[0]) + u, Canonical(y[0]) + v);
      Unique(x[0], y[0], u, v);
      ElementsUnique(x[1..], y[1..], false, s, t);
    }
  }

  lemma AfterComma(first: bool, x: string, y: string)
    requires (if first then "" else ",") + x == (if first then "" else ",") + y
    ensures x == y
  {
    if first {
      assert "" + x == x && "" + y == y;
    } else {
      assert x == ("," + x)[1..] && y == ("," + y)[1..];
    }
  }

  ghost predicate ProperFields(fields: seq<Field>) {
    forall i :: 0 <= i < |fields| ==> Proper(fields[i].value)
  }

  lemma MembersStart(f: seq<Field>, ks: seq<string>, first: bool, s: string)
    requires AllKnown(f, ks)
    ensures var e := Members(f, ks, first) + s; e != "" && (e[0] == '}' <==> ks == []) && (!first ==> Stops(e))
    ensures ks != [] ==> AllKnown(f, ks[1..]) && ks[0] in Keys(f)
    ensures ks != [] ==>
      Members(f, ks, first) + s == (if first then "" else ",") +
        (Quoted(ks[0]) + (":" + (Canonical(f[Find(f, ks[0])].value) + (Members(f, ks[1..], false) + s))))
  {
    hide Canonical, Escape, Find, Keys, Quoted;
    if ks != [] {
      QuotedStarts(ks[0]);
      var v, rest := Canonical(f[Find(f, ks[0])].value), Members(f, ks[1..], false);
      assert Members(f, ks, first) == (if first then "" else ",") + Quoted(ks[0]) + ":" + v + rest;
      hide *;
      JoinSix(if first then "" else ",", Quoted(ks[0]), ":", v, rest, s);
    }
  }

  lemma QuotedStarts(s: string)
    ensures Quoted(s) != "" && Quoted(s)[0] == '"'
  {
  }

  lemma JoinSix(a: string, b: string, c: string, d: string, e: string, f: string)
    ensures a + b + c + d + e + f == a + (b + (c + (d + (e + f))))
  {
  }

  lemma {:induction false} MembersUnique(f: seq<Field>, ks: seq<string>, g: seq<Field>, ls: seq<string>, first: bool, s: string, t: string)
    requires ProperFields(f) && ProperFields(g) && AllKnown(f, ks) && AllKnown(g, ls)
    requires Members(f, ks, first) + s == Members(g, ls, first) + t
    ensures ks == ls && s == t
    ensures forall k :: k in ks && k in Keys(f) && k in Keys(g) ==> Same(f[Find(f, k)].value, g[Find(g, k)].value)
    decreases f, |ks|
  {
    hide Canonical, Same, Proper, Quoted, Find, Keys;
    MembersStart(f, ks, first, s);
    MembersStart(g, ls, first, t);
    if ks == [] {
      SameLength("}", s, "}", t);
    } else {
      var a, b := f[Find(f, ks[0])].value, g[Find(g, ls[0])].value;
      var u, v := Members(f, ks[1..], false) + s, Members(g, ls[1..], false) + t;
      MembersStart(f, ks[1..], false, s);
      MembersStart(g, ls[1..], false, t);
      AfterComma(first, Quoted(ks[0]) + (":" + (Canonical(a) + u)), Quoted(ls[0]) + (":" + (Canonical(b) + v)));
      QuotedUnique(ks[0], ls[0], ":" + (Canonical(a) + u), ":" + (Canonical(b) + v));
      SameLength(":", Canonical(a) + u, ":", Canonical(b) + v);
      Unique(a, b, u, v);
      MembersUnique(f, ks[1..], g, ls[1..], false, s, t);
      assert ks == [ks[0]] + ks[1..] && ls == [ls[0]] + ls[1..];
    }
  }

  lemma ObjectText(x: seq<Field>, s: string)
    ensures AllKnown(x, Sort(Keys(x)))
    ensures Canonical(Obj(x)) + s == "{" + (Members(x, Sort(Keys(x)), true) + s)
  {
    SortKnown(x);
    hide Members, Sort;
  }

  lemma {:induction false} ObjectUnique(x: seq<Field>, y: seq<Field>, s: string, t: string)
    requires Proper(Obj(x)) && Proper(Obj(y)) && Canonical(Obj(x)) + s == Canonical(Obj(y)) + t
    ensures Same(Obj(x), Obj(y)) && s == t
    decreases x, |Sort(Keys(x))| + 1
  {
    hide Canonical, Members, Sort, Find;
    var ks, ls := Sort(Keys(x)), Sort(Keys(y));
    ObjectText(x, s);
    ObjectText(y, t);
    SameLength("{", Members(x, ks, true) + s, "{", Members(y, ls, true) + t);
    MembersUnique(x, ks, y, ls, true, s, t);
    forall k ensures (k in Keys(x) <==> k in ks) && (k in Keys(y) <==> k in ls) {
      SortMembers(Keys(x), k);
      SortMembers(Keys(y), k);
    }
  }

  lemma {:induction false} SameText(a: Json, b: Json)
    requires Proper(a) && Proper(b) && Same(a, b)
    ensures Canonical(a) == Canonical(b)
    decreases a, 0
  {
    match a
    case Null =>
    case Bool(_) =>
    case Num(_) =>
    case Str(_) =>
    case Arr(x) => ElementsSame(x, b.items, true);
    case Obj(x) =>
      SortCanonical(Keys(x), Keys(b.fields));
      SortKnown(x);
      SortKnown(b.fields);
      hide Sort, Find, Members;
      MembersSame(x, b.fields, Sort(Keys(x)), true);
  }

  lemma {:induction false} ElementsSame(x: seq<Json>, y: seq<Json>, first: bool)
    requires AllProper(x) && AllProper(y) && |x| == |y| && (forall i :: 0 <= i < |x| ==> Same(x[i], y[i]))
    ensures Elements(x, first) == Elements(y, first)
    decreases x, 0
  {
    hide Canonical, Same, Proper;
    if x != [] {
      SameText(x[0], y[0]);
      ElementsSame(x[1..], y[1..], false);
    }
  }

  lemma {:induction false} MembersSame(f: seq<Field>, g: seq<Field>, ks: seq<string>, first: bool)
    requires ProperFields(f) && ProperFields(g) && AllKnown(f, ks) && AllKnown(g, ks)
    requires forall k :: k in ks && k in Keys(f) && k in Keys(g) ==> Same(f[Find(f, k)].value, g[Find(g, k)].value)
    ensures Members(f, ks, first) == Members(g, ks, first)
    decreases f, |ks|
  {
    hide Canonical, Same, Proper, Find, Keys;
    if ks != [] {
      assert ks[0] in Keys(f) && ks[0] in Keys(g);
      SameText(f[Find(f, ks[0])].value, g[Find(g, ks[0])].value);
      MembersSame(f, g, ks[1..], false);
    }
  }

  /** Two values have the same canonical text exactly if they are equal up to the order of keys. */
  lemma CanonicalIffSame(a: Json, b: Json)
    requires Proper(a) && Proper(b)
    ensures Canonical(a) == Canonical(b) <==> Same(a, b)
  {
    hide Canonical, Same, Proper;
    if Canonical(a) == Canonical(b) {
      Unique(a, b, "", "");
    }
    if Same(a, b) {
      SameText(a, b);
    }
  }

  // ----- The recursion that writes the text -----

  method AppendEscapedString(s: string, out: string) returns (r: string)
    ensures r == out + Quoted(s)
  {
    hide EscapeChar;
    r := out + "\"";
    for i := 0 to |s|
      invariant r + Escape(s[i..]) == out + "\"" + Escape(s)
    {
      assert s[i..][0] == s[i] && s[i..][1..] == s[i + 1..];
      r := r + EscapeChar(s[i]);
    }
    assert s[|s|..] == "" && r + "" == r;
    r := r + "\"";
  }

  method AppendCanonical(v: Json, out: string) returns (r: string)
    ensures r == out + Canonical(v)
    decreases v, 0
  {
    hide Escape, Quoted, Sort, Elements, Members;
    match v
    case Obj(fields) => r := AppendObject(fields, out);
    case Arr(items) => r := AppendArray(items, out);
    case Str(s) => r := AppendEscapedString(s, out);
    case Num(text) => r := out + text;
    case Bool(b) => r := out + if b then "true" else "false";
    case Null => r := out + "null";
  }

  method AppendObject(fields: seq<Field>, out: string) returns (r: string)
    ensures r == out + Canonical(Obj(fields))
    decreases fields, 1
  {
    var keys := Sort(Keys(fields));
    ObjectText(fields, "");
    hide Escape, Quoted, Sort, Find, Canonical;
    r := out + "{";
    for i := 0 to |keys|
      invariant r + Members(fields, keys[i..], i == 0) == out + ("{" + Members(fields, keys, true))
    {
      var k, rest := keys[i], keys[i..];
      assert rest[0] == k && rest[1..] == keys[i + 1..];
      ghost var before := r;
      if i != 0 {
        r := r + ",";
      }
      r := AppendEscapedString(k, r);
      r := r + ":";
      r := AppendCanonical(fields[Find(fields, k)].value, r);
      MembersStep(fields, rest, i == 0, before, r);
    }
    assert keys[|keys|..] == [];
    r := r + "}";
    assert Members(fields, keys, true) + "" == Members(fields, keys, true) && Canonical(Obj(fields)) + "" == Canonical(Obj(fields));
  }

  lemma MembersStep(fields: seq<Field>, ks: seq<string>, first: bool, before: string, r: string)
    requires AllKnown(fields, ks) && ks != [] && ks[0] in Keys(fields)
    requires r == (if first then before else before + ",") + Quoted(ks[0]) + ":" + Canonical(fields[Find(fields, ks[0])].value)
    ensures AllKnown(fields, ks[1..]) && r + Members(fields, ks[1..], false) == before + Members(fields, ks, first)
  {
    MembersStart(fields, ks, first, "");
    hide *;
    var c, rest := if first then "" else ",", Members(fields, ks[1..], false);
    var q, v := Quoted(ks[0]), Canonical(fields[Find(fields, ks[0])].value);
    assert before + "" == before && rest + "" == rest && Members(fields, ks, first) + "" == Members(fields, ks, first);
    JoinSix(before, c, q, ":", v, rest);
  }

  method AppendArray(items: seq<Json>, out: string) returns (r: string)
    ensures r == out + Canonical(Arr(items))
    decreases items, 1
  {
    assert Canonical(Arr(items)) == "[" + Elements(items, true);
    hide Canonical;
    r := out + "[";
    for i := 0 to |items|
      invariant r + Elements(items[i..], i == 0) == out + ("[" + Elements(items, true))
    {
      ghost var before, rest := r, items[i..];
      assert rest[0] == items[i] && rest[1..] == items[i + 1..];
      if i != 0 {
        r := r + ",";
      }
      r := AppendCanonical(items[i], r);
      ElementsStep(rest, i == 0, before, r);
    }
    assert items[|items|..] == [];
    r := r + "]";
  }

  lemma ElementsStep(items: seq<Json>, first: bool, before: string, r: string)
    requires items != [] && r == (if first then before else before + ",") + Canonical(items[0])
    ensures r + Elements(items[1..], false) == before + Elements(items, first)
  {
    var c, v, rest := if first then "" else ",", Canonical(items[0]), Elements(items[1..], false);
    assert Elements(items, first) == c + v + rest;
    hide *;
    assert before + "" == before;
    assert before + c + v + rest == before + (c + v + rest);
  }

  method CanonicalText(v: Json) returns (r: string)
    ensures r == Canonical(v)
  {
    r := AppendCanonical(v, "");
    assert "" + Canonical(v) == Canonical(v);
  }
}
