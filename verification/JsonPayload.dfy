/**
 The text `json.dumps(value, sort_keys=True)` prints, and what it tells apart.

 Values are string-keyed JSON without floats. A Python string is a sequence of code points, which may
 be surrogates. With `ensure_ascii`, which is on, a code point above 0xFFFF is printed as the escapes
 of its surrogate pair (sections 4, 5 and 7 of RFC 8259).
 */
module JsonPayload {
  import opened Decimals

  type CodePoint = c: nat | c < 0x110000
  type Text = seq<CodePoint>

  datatype Json =
    | JNull
    | JBool(b: bool)
    | JInt(n: int)
    | JString(text: Text)
    | JList(items: seq<Json>)
    | JObject(members: map<Text, Json>)

  // ---------------------------------------------------------------- what gets printed

  predicate IsSurrogate(c: nat) {
    0xD800 <= c < 0xE000
  }

  function Units(text: Text): seq<nat> {
    if text == [] then []
    else
      var c: nat := text[0];
      (if c < 0x10000 then [c] else [0xD800 + (c - 0x10000) / 0x400, 0xDC00 + (c - 0x10000) % 0x400]) + Units(text[1..])
  }

  predicate Less(a: Text, b: Text) {
    b != [] && (a == [] || a[0] < b[0] || (a[0] == b[0] && Less(a[1..], b[1..])))
  }

  /** A value as it is about to be printed: members in key order, strings as UTF-16 units. */
  datatype Ordered =
    | ONull
    | OBool(b: bool)
    | OInt(n: int)
    | OString(units: seq<nat>)
    | OList(items: seq<Ordered>)
    | OObject(members: seq<Ordered>)
    | OMember(key: seq<nat>, value: Ordered)

  predicate IsLeast(k: Text, keys: set<Text>) {
    k in keys && forall o <- keys :: o == k || Less(k, o)
  }

  function SortedKeys(keys: set<Text>): (r: seq<Text>)
    ensures forall k :: k in r <==> k in keys
    ensures forall i, j :: 0 <= i < j < |r| ==> Less(r[i], r[j])
    decreases |keys|
  {
    if keys == {} then []
    else
      LeastExists(keys);
      LeastIsUnique(keys);
      var k :| k in keys && IsLeast(k, keys);
      [k] + SortedKeys(keys - {k})
  }

  lemma {:induction false} LessIsTotal(a: Text, b: Text)
    ensures a == b || Less(a, b) || Less(b, a)
  {
    if a != [] && b != [] && a[0] == b[0] {
      LessIsTotal(a[1..], b[1..]);
      assert a == [a[0]] + a[1..] && b == [b[0]] + b[1..];
    }
  }

  lemma {:induction false} LessIsTransitive(a: Text, b: Text, c: Text)
    requires Less(a, b) && Less(b, c)
    ensures Less(a, c)
  {
    if a != [] && a[0] == b[0] == c[0] {
      LessIsTransitive(a[1..], b[1..], c[1..]);
    }
  }

  lemma {:induction false} LeastExists(keys: set<Text>)
    requires keys != {}
    ensures exists k :: IsLeast(k, keys)
    decreases |keys|
  {
    var a :| a in keys;
    var rest := keys - {a};
    if rest == {} {
      assert keys == {a};
      assert IsLeast(a, keys);
    } else {
      LeastExists(rest);
      var b :| IsLeast(b, rest);
      LessIsTotal(a, b);
      if Less(a, b) {
        LeastOfMore(a, b, keys);
      } else {
        assert forall o <- keys :: o == a || o in rest;
        assert IsLeast(b, keys);
      }
    }
  }

  lemma {:induction false} LessIsAsymmetric(a: Text, b: Text)
    ensures !(Less(a, b) && Less(b, a))
  {
    if a != [] && b != [] {
      LessIsAsymmetric(a[1..], b[1..]);
    }
  }

  lemma LeastIsUnique(keys: set<Text>)
    ensures forall j, k :: IsLeast(j, keys) && IsLeast(k, keys) ==> j == k
  {
    forall j, k | IsLeast(j, keys) && IsLeast(k, keys) ensures j == k {
      LessIsAsymmetric(j, k);
    }
  }

  lemma LeastOfMore(a: Text, b: Text, keys: set<Text>)
    requires a in keys && IsLeast(b, keys - {a}) && Less(a, b)
    ensures IsLeast(a, keys)
  {
    forall o | o in keys ensures o == a || Less(a, o) {
      if o != a && o != b {
        LessIsTransitive(a, b, o);
      }
    }
  }

  ghost predicate Lists(r: seq<Text>, keys: set<Text>) {
    && (forall k :: k in r <==> k in keys)
    && (forall i, j :: 0 <= i < j < |r| ==> Less(r[i], r[j]))
  }

  lemma FirstIsLeast(keys: set<Text>, r: seq<Text>)
    requires Lists(r, keys) && r != []
    ensures IsLeast(r[0], keys)
  {
    assert r[0] in r;
    forall o | o in keys ensures o == r[0] || Less(r[0], o) {
      assert o in r;
      var i :| 0 <= i < |r| && r[i] == o;
    }
  }

  lemma RestIsListed(keys: set<Text>, r: seq<Text>)
    requires Lists(r, keys) && r != []
    ensures Lists(r[1..], keys - {r[0]})
  {
    forall k ensures k in r[1..] <==> k in keys - {r[0]} {
      if k in r[1..] {
        var i :| 0 <= i < |r[1..]| && r[1..][i] == k;
        assert r[i + 1] == k && Less(r[0], k) && k in r;
        LessIsAsymmetric(k, k);
      }
      if k in keys - {r[0]} {
        assert k in r;
        var i :| 0 <= i < |r| && r[i] == k;
        assert r[1..][i - 1] == k;
      }
    }
  }

  lemma EmptyLists(keys: set<Text>, a: seq<Text>)
    requires Lists(a, keys)
    ensures a == [] <==> keys == {}
  {
    assert a != [] ==> a[0] in a;
    assert keys == set k | k in a;
  }

  lemma {:induction false} ListsAgree(keys: set<Text>, a: seq<Text>, b: seq<Text>)
    requires Lists(a, keys) && Lists(b, keys)
    ensures a == b
    decreases |a|
  {
    EmptyLists(keys, a);
    EmptyLists(keys, b);
    if a != [] {
      FirstIsLeast(keys, a);
      FirstIsLeast(keys, b);
      LeastIsUnique(keys);
      RestIsListed(keys, a);
      RestIsListed(keys, b);
      ListsAgree(keys - {a[0]}, a[1..], b[1..]);
      assert a == [a[0]] + a[1..] && b == [b[0]] + b[1..];
    }
  }

  /** Sorting has one outcome: any list of the same keys in rising order is it. */
  lemma SortedKeysUnique(keys: set<Text>, r: seq<Text>)
    requires Lists(r, keys)
    ensures SortedKeys(keys) == r
  {
    ListsAgree(keys, SortedKeys(keys), r);
  }

  function Order(j: Json): Ordered
    decreases j
  {
    match j
    case JNull => ONull
    case JBool(b) => OBool(b)
    case JInt(n) => OInt(n)
    case JString(t) => OString(Units(t))
    case JList(items) => OList(seq(|items|, i requires 0 <= i < |items| => Order(items[i])))
    case JObject(members) =>
      var keys := SortedKeys(members.Keys);
      OObject(seq(|keys|, i requires 0 <= i < |keys| => OMember(Units(keys[i]), Order(members[keys[i]]))))
  }

  lemma MemberAt(members: map<Text, Json>, i: nat, key: Text, value: Json)
    requires i < |SortedKeys(members.Keys)| && SortedKeys(members.Keys)[i] == key
    requires key in members && members[key] == value
    ensures |Order(JObject(members)).members| == |SortedKeys(members.Keys)|
    ensures Order(JObject(members)).members[i] == OMember(Units(key), Order(value))
  {}

  function HexDigit(d: nat): char
    requires d < 16
  {
    if d < 10 then '0' + d as char else 'a' + (d - 10) as char
  }

  function Hex(u: nat, width: nat): (s: string)
    ensures |s| == width
  {
    if width == 0 then "" else Hex(u / 16, width - 1) + [HexDigit(u % 16)]
  }

  function EscapeUnit(u: nat): (s: string)
    ensures s != [] && s[0] != '\"'
  {
    if u == 0x22 then ['\\', '\"']
    else if u == 0x5C then ['\\', '\\']
    else if u == 0x0A then ['\\', 'n']
    else if u == 0x0D then ['\\', 'r']
    else if u == 0x09 then ['\\', 't']
    else if u == 0x0C then ['\\', 'f']
    else if u == 0x08 then ['\\', 'b']
    else if 0x20 <= u <= 0x7E then [u as char]
    else ['\\', 'u'] + Hex(u, 4)
  }

  /** The inside of a string literal with its closing quote. */
  function StringTail(units: seq<nat>): (s: string)
    ensures s != []
  {
    if units == [] then "\"" else EscapeUnit(units[0]) + StringTail(units[1..])
  }

  function IntText(n: int): string {
    if n < 0 then "-" + Decimal(-n) else Decimal(n)
  }

  function Print(v: Ordered): string {
    match v
    case ONull => "null"
    case OBool(b) => if b then "true" else "false"
    case OInt(n) => IntText(n)
    case OString(units) => "\"" + StringTail(units)
    case OList(items) => "[" + Items(items, ']')
    case OObject(members) => "{" + Items(members, '}')
    case OMember(key, value) => "\"" + (StringTail(key) + (": " + Print(value)))
  }

  /** Comma-separated values and the closing bracket. */
  function Items(items: seq<Ordered>, close: char): string {
    if items == [] then [close] else Print(items[0]) + MoreItems(items[1..], close)
  }

  function MoreItems(items: seq<Ordered>, close: char): (s: string)
    ensures s != [] && (s[0] == ',' || s[0] == close)
  {
    if items == [] then [close] else ", " + (Print(items[0]) + MoreItems(items[1..], close))
  }

  /** What may follow a value. */
  predicate Stops(s: string) {
    s == [] || s[0] == ',' || s[0] == ']' || s[0] == '}'
  }

  function Dumps(j: Json): string {
    Print(Order(j))
  }

  // ---------------------------------------------------------------- printing loses nothing

  /** The units that can occur. */
  predicate IsUnits(units: seq<nat>) {
    forall i :: 0 <= i < |units| ==> units[i] < 0x10000
  }

  predicate Printable(v: Ordered) {
    match v
    case OString(units) => IsUnits(units)
    case OList(items) => forall x <- items :: Printable(x)
    case OObject(members) => forall m <- members :: Printable(m)
    case OMember(key, value) => IsUnits(key) && Printable(value)
    case _ => true
  }

  lemma Cut(x: string, y: string, s: string, t: string)
    requires |x| == |y| && x + s == y + t
    ensures x == y && s == t
  {
    assert (x + s)[..|x|] == x && (y + t)[..|y|] == y;
    assert (x + s)[|x|..] == s && (y + t)[|y|..] == t;
  }

  lemma Regroup(x: string, y: string, s: string)
    ensures (x + y) + s == x + (y + s)
  {}

  function Pow16(w: nat): nat {
    if w == 0 then 1 else 16 * Pow16(w - 1)
  }

  lemma {:induction false} HexTells(u: nat, v: nat, w: nat)
    requires u < Pow16(w) && v < Pow16(w) && Hex(u, w) == Hex(v, w)
    ensures u == v
  {
    if w > 0 {
      Cut(Hex(u / 16, w - 1), Hex(v / 16, w - 1), [HexDigit(u % 16)], [HexDigit(v % 16)]);
      assert [HexDigit(u % 16)][0] == [HexDigit(v % 16)][0];
      HexTells(u / 16, v / 16, w - 1);
    }
  }

  lemma EscapeIsPrefixFree(u: nat, v: nat, s: string, t: string)
    requires u < 0x10000 && v < 0x10000
    requires EscapeUnit(u) + s == EscapeUnit(v) + t
    ensures u == v && s == t
  {
    var x, y := EscapeUnit(u), EscapeUnit(v);
    assert (x + s)[0] == x[0] && (y + t)[0] == y[0];
    if |x| > 1 {
      assert (x + s)[1] == x[1] && (y + t)[1] == y[1];
    }
    Cut(x, y, s, t);
    if |x| == 6 {
      Cut(['\\', 'u'], ['\\', 'u'], Hex(u, 4), Hex(v, 4));
      assert Pow16(4) == 16 * Pow16(3) == 256 * Pow16(2) == 0x10000;
      HexTells(u, v, 4);
    }
  }

  lemma {:induction false} StringTailTells(a: seq<nat>, b: seq<nat>, s: string, t: string)
    requires IsUnits(a) && IsUnits(b)
    requires StringTail(a) + s == StringTail(b) + t
    ensures a == b && s == t
  {
    assert (StringTail(a) + s)[0] == StringTail(a)[0] && (StringTail(b) + t)[0] == StringTail(b)[0];
    if a != [] && b != [] {
      Regroup(EscapeUnit(a[0]), StringTail(a[1..]), s);
      Regroup(EscapeUnit(b[0]), StringTail(b[1..]), t);
      EscapeIsPrefixFree(a[0], b[0], StringTail(a[1..]) + s, StringTail(b[1..]) + t);
      StringTailTells(a[1..], b[1..], s, t);
      assert a == [a[0]] + a[1..] && b == [b[0]] + b[1..];
    } else {
      assert a == b == [];
      Cut("\"", "\"", s, t);
    }
  }

  lemma DigitsAreNoLonger(x: string, y: string, s: string, t: string)
    requires forall c <- y :: IsDigit(c)
    requires Stops(s) && x + s == y + t
    ensures |y| <= |x|
  {
    assert forall i :: 0 <= i < |y| ==> IsDigit((y + t)[i]);
    assert s != [] ==> (x + s)[|x|] == s[0];
  }

  lemma DigitsThenStop(x: string, y: string, s: string, t: string)
    requires (forall c <- x :: IsDigit(c)) && (forall c <- y :: IsDigit(c))
    requires Stops(s) && Stops(t) && x + s == y + t
    ensures x == y && s == t
  {
    DigitsAreNoLonger(x, y, s, t);
    DigitsAreNoLonger(y, x, t, s);
    Cut(x, y, s, t);
  }

  lemma IntTextTells(m: int, n: int, s: string, t: string)
    requires Stops(s) && Stops(t) && IntText(m) + s == IntText(n) + t
    ensures m == n && s == t
  {
    var x, y := IntText(m), IntText(n);
    assert (x + s)[0] == x[0] && (y + t)[0] == y[0];
    FirstCharTellsKind(OInt(m), s);
    assert m >= 0 ==> IsDigit(x[0]);
    assert n >= 0 ==> IsDigit(y[0]);
    if m < 0 {
      Regroup("-", Decimal(-m), s);
      Regroup("-", Decimal(-n), t);
      Cut("-", "-", Decimal(-m) + s, Decimal(-n) + t);
      DigitsThenStop(Decimal(-m), Decimal(-n), s, t);
      DecimalInjective(-m, -n);
    } else {
      DigitsThenStop(x, y, s, t);
      DecimalInjective(m, n);
    }
  }

  /** The first character tells what kind of value is printed. */
  lemma FirstCharTellsKind(v: Ordered, s: string)
    ensures Print(v) != [] && (Print(v) + s)[0] == Print(v)[0]
    ensures var c := Print(v)[0];
            && (v.ONull? <==> c == 'n')
            && (v.OBool? && v.b <==> c == 't')
            && (v.OBool? && !v.b <==> c == 'f')
            && (v.OInt? <==> c == '-' || IsDigit(c))
            && (v.OString? || v.OMember? <==> c == '\"')
            && (v.OList? <==> c == '[')
            && (v.OObject? <==> c == '{')
  {
    if v.OInt? && v.n >= 0 {
      assert Decimal(v.n)[0] in Decimal(v.n);
    }
  }

  /** A printed value can be read back: it and what follows it are determined by the characters. */
  lemma {:induction false} PrintTells(v: Ordered, w: Ordered, s: string, t: string)
    requires Printable(v) && Printable(w)
    requires Stops(s) && Stops(t) && Print(v) + s == Print(w) + t
    ensures v == w && s == t
    decreases v, 1
  {
    FirstCharTellsKind(v, s);
    FirstCharTellsKind(w, t);
    if v.ONull? || v.OBool? {
      Cut(Print(v), Print(w), s, t);
    } else if v.OInt? {
      IntTextTells(v.n, w.n, s, t);
    } else if v.OList? {
      Regroup("[", Items(v.items, ']'), s);
      Regroup("[", Items(w.items, ']'), t);
      Cut("[", "[", Items(v.items, ']') + s, Items(w.items, ']') + t);
      ItemsTell(v.items, w.items, ']', s, t);
    } else if v.OObject? {
      Regroup("{", Items(v.members, '}'), s);
      Regroup("{", Items(w.members, '}'), t);
      Cut("{", "{", Items(v.members, '}') + s, Items(w.members, '}') + t);
      ItemsTell(v.members, w.members, '}', s, t);
    } else {
      var x, y := AfterString(v, s), AfterString(w, t);
      Cut("\"", "\"", StringTail(Label(v)) + x, StringTail(Label(w)) + y);
      StringTailTells(Label(v), Label(w), x, y);
      assert v.OString? ==> Stops(x);
      assert w.OString? ==> Stops(y);
      if v.OMember? && w.OMember? {
        Cut(": ", ": ", Print(v.value) + s, Print(w.value) + t);
        PrintTells(v.value, w.value, s, t);
      }
    }
  }

  /** The string a string or a member starts with, and what comes after its closing quote. */
  function Label(v: Ordered): seq<nat>
    requires v.OString? || v.OMember?
  {
    if v.OString? then v.units else v.key
  }

  function AfterString(v: Ordered, s: string): (r: string)
    requires v.OString? || v.OMember?
    ensures Print(v) + s == "\"" + (StringTail(Label(v)) + r)
    ensures r == if v.OString? then s else ": " + (Print(v.value) + s)
  {
    if v.OString? then
      Regroup("\"", StringTail(v.units), s);
      s
    else
      Regroup("\"", StringTail(v.key) + (": " + Print(v.value)), s);
      Regroup(StringTail(v.key), ": " + Print(v.value), s);
      Regroup(": ", Print(v.value), s);
      ": " + (Print(v.value) + s)
  }

  lemma {:induction false} ItemsTell(xs: seq<Ordered>, ys: seq<Ordered>, close: char, s: string, t: string)
    requires (forall x <- xs :: Printable(x)) && (forall y <- ys :: Printable(y))
    requires (close == ']' || close == '}') && Items(xs, close) + s == Items(ys, close) + t
    ensures xs == ys && s == t
    decreases xs, 0
  {
    if xs != [] {
      Regroup(Print(xs[0]), MoreItems(xs[1..], close), s);
      FirstCharTellsKind(xs[0], MoreItems(xs[1..], close) + s);
    }
    if ys != [] {
      Regroup(Print(ys[0]), MoreItems(ys[1..], close), t);
      FirstCharTellsKind(ys[0], MoreItems(ys[1..], close) + t);
    }
    assert ([close] + s)[0] == ([close] + t)[0] == close;
    if xs != [] && ys != [] {
      PrintTells(xs[0], ys[0], MoreItems(xs[1..], close) + s, MoreItems(ys[1..], close) + t);
      MoreItemsTell(xs[1..], ys[1..], close, s, t);
      assert xs == [xs[0]] + xs[1..] && ys == [ys[0]] + ys[1..];
    } else {
      assert xs == ys == [];
      Cut([close], [close], s, t);
    }
  }

  lemma {:induction false} MoreItemsTell(xs: seq<Ordered>, ys: seq<Ordered>, close: char, s: string, t: string)
    requires (forall x <- xs :: Printable(x)) && (forall y <- ys :: Printable(y))
    requires (close == ']' || close == '}') && MoreItems(xs, close) + s == MoreItems(ys, close) + t
    ensures xs == ys && s == t
    decreases xs, 0
  {
    assert (MoreItems(xs, close) + s)[0] == MoreItems(xs, close)[0];
    assert (MoreItems(ys, close) + t)[0] == MoreItems(ys, close)[0];
    if xs != [] && ys != [] {
      var p, q := MoreItems(xs[1..], close), MoreItems(ys[1..], close);
      Regroup(", ", Print(xs[0]) + p, s);
      Regroup(", ", Print(ys[0]) + q, t);
      Cut(", ", ", ", (Print(xs[0]) + p) + s, (Print(ys[0]) + q) + t);
      Regroup(Print(xs[0]), p, s);
      Regroup(Print(ys[0]), q, t);
      PrintTells(xs[0], ys[0], p + s, q + t);
      MoreItemsTell(xs[1..], ys[1..], close, s, t);
      assert xs == [xs[0]] + xs[1..] && ys == [ys[0]] + ys[1..];
    } else {
      assert xs == ys == [];
      Cut([close], [close], s, t);
    }
  }

  lemma {:induction false} UnitsAreUnits(text: Text)
    ensures IsUnits(Units(text))
  {
    if text != [] {
      UnitsAreUnits(text[1..]);
    }
  }

  lemma {:induction false} OrderIsPrintable(j: Json)
    ensures Printable(Order(j))
    decreases j
  {
    match j
    case JString(text) => UnitsAreUnits(text);
    case JList(items) =>
      forall i | 0 <= i < |items| ensures Printable(Order(items[i])) {
        OrderIsPrintable(items[i]);
      }
    case JObject(members) =>
      var keys := SortedKeys(members.Keys);
      forall i | 0 <= i < |keys| ensures IsUnits(Units(keys[i])) && Printable(Order(members[keys[i]])) {
        assert keys[i] in members;
        UnitsAreUnits(keys[i]);
        OrderIsPrintable(members[keys[i]]);
      }
    case _ =>
  }

  /** Two values print alike exactly when they agree on order, numbers, constants and UTF-16 units. */
  lemma DumpsTells(j: Json, k: Json)
    ensures Dumps(j) == Dumps(k) <==> Order(j) == Order(k)
  {
    if Dumps(j) == Dumps(k) {
      OrderIsPrintable(j);
      OrderIsPrintable(k);
      PrintTells(Order(j), Order(k), [], []);
    }
  }

  // ---------------------------------------------------------------- which values are told apart

  predicate WellFormedText(text: Text) {
    forall c <- text :: !IsSurrogate(c)
  }

  /** No string in the value holds a surrogate code point. */
  ghost predicate WellFormed(j: Json)
    decreases j
  {
    match j
    case JString(text) => WellFormedText(text)
    case JList(items) => forall i | 0 <= i < |items| :: WellFormed(items[i])
    case JObject(members) => forall k | k in members :: WellFormedText(k) && WellFormed(members[k])
    case _ => true
  }

  lemma {:induction false} UnitsTell(a: Text, b: Text)
    requires WellFormedText(a) && WellFormedText(b) && Units(a) == Units(b)
    ensures a == b
  {
    if a != [] && b != [] {
      var x, y := Units(a), Units(b);
      assert !IsSurrogate(a[0]) && !IsSurrogate(b[0]);
      assert x[0] == y[0];
      assert a[0] >= 0x10000 ==> IsSurrogate(x[0]);
      assert b[0] >= 0x10000 ==> IsSurrogate(y[0]);
      var n := if a[0] < 0x10000 then 1 else 2;
      assert n == 2 ==> x[1] == y[1];
      assert a[0] == b[0];
      assert Units(a[1..]) == x[n..] && Units(b[1..]) == y[n..];
      UnitsTell(a[1..], b[1..]);
      assert a == [a[0]] + a[1..] && b == [b[0]] + b[1..];
    }
  }

  lemma {:induction false} OrderTells(j: Json, k: Json)
    requires WellFormed(j) && WellFormed(k) && Order(j) == Order(k)
    ensures j == k
    decreases j
  {
    match j
    case JString(text) => UnitsTell(text, k.text);
    case JList(items) =>
      assert |Order(j).items| == |items| && |Order(k).items| == |k.items|;
      forall i | 0 <= i < |items| ensures items[i] == k.items[i] {
        assert Order(j).items[i] == Order(items[i]) && Order(k).items[i] == Order(k.items[i]);
        OrderTells(items[i], k.items[i]);
      }
    case JObject(members) =>
      ObjectOrderTells(j, k);
    case _ =>
  }

  lemma {:induction false} ObjectOrderTells(j: Json, k: Json)
    requires j.JObject? && k.JObject? && WellFormed(j) && WellFormed(k) && Order(j) == Order(k)
    ensures j == k
    decreases j, 0
  {
    var ms, ns := j.members, k.members;
    var xs, ys := SortedKeys(ms.Keys), SortedKeys(ns.Keys);
    assert |Order(j).members| == |xs| && |Order(k).members| == |ys|;
    forall i | 0 <= i < |xs| ensures xs[i] == ys[i] && ms[xs[i]] == ns[ys[i]] {
      assert Order(j).members[i] == OMember(Units(xs[i]), Order(ms[xs[i]]));
      assert Order(k).members[i] == OMember(Units(ys[i]), Order(ns[ys[i]]));
      assert xs[i] in ms && ys[i] in ns;
      UnitsTell(xs[i], ys[i]);
      OrderTells(ms[xs[i]], ns[ys[i]]);
    }
    assert xs == ys;
    forall key ensures key in ms <==> key in ns {
      assert key in xs <==> key in ms.Keys;
      assert key in ys <==> key in ns.Keys;
    }
    forall key | key in ms ensures ms[key] == ns[key] {
      assert key in xs;
      var i :| 0 <= i < |xs| && xs[i] == key;
    }
    assert ms == ns;
  }

  /** Without surrogates, printing tells every two values apart. */
  lemma DumpsIsInjective(j: Json, k: Json)
    requires WellFormed(j) && WellFormed(k)
    ensures Dumps(j) == Dumps(k) <==> j == k
  {
    DumpsTells(j, k);
    if Dumps(j) == Dumps(k) {
      OrderTells(j, k);
    }
  }

  /** With surrogates it does not: the pair D83D DE00 prints like the one code point 1F600. */
  lemma SurrogatePairsCollide()
    ensures var j, k := JString([0xD83D, 0xDE00]), JString([0x1F600]);
            j != k && Dumps(j) == Dumps(k)
  {
    var a: Text, b: Text := [0xD83D, 0xDE00], [0x1F600];
    assert a[1..] == [0xDE00] && a[1..][1..] == [] && b[1..] == [];
    assert Units(a[1..]) == [0xDE00];
    assert Units(a) == [0xD83D, 0xDE00] == Units(b);
  }
}
