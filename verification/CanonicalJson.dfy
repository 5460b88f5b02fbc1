/**
 * `canonicalJson` of gen-architecture-docs.ts: sort the members of every object
 * and print with one space of indentation. Two values print alike exactly when
 * they differ at most in the member order of objects, at any depth.
 *
 * Values follow the grammar of section 3 of RFC 8259. A number is its printed
 * token, so two numbers are equal when their tokens are.
 */
module CanonicalJson {
  import opened Decimal

  datatype Json =
    | JNull
    | JBool(b: bool)
    | JNumber(token: string)
    | JString(s: string)
    | JArray(items: Items)
    | JObject(members: Members)

  datatype Items = NoItems | Item(head: Json, rest: Items)

  datatype Members = NoMembers | Member(key: string, value: Json, tail: Members)

  // ---- The order of keys ----

  /**
   * The rank of a character in UTF-16 code-unit order: a character outside the
   * basic plane starts with a surrogate, which sorts before U+E000.
   */
  function Rank(c: char): int {
    var n := c as int;
    if n < 0xE000 then n else if n < 0x10000 then n + 0x110000 else n
  }

  predicate LexLeq(a: string, b: string) {
    if a == [] then true
    else if b == [] then false
    else if a[0] == b[0] then LexLeq(a[1..], b[1..])
    else Rank(a[0]) <= Rank(b[0])
  }

  /** An array index such as "0" or "42", which an object enumerates before its other keys. */
  predicate IsIndex(k: string) {
    k != [] && AllDigits(k) && (k == "0" || k[0] != '0') && Number(k) < 0xFFFF_FFFF
  }

  /**
   * The order in which a sorted object enumerates its keys: indices first, by
   * value (equal lengths compare by digits), then the other keys.
   */
  predicate KeyLeq(a: string, b: string) {
    if IsIndex(a) && IsIndex(b) then |a| < |b| || (|a| == |b| && LexLeq(a, b))
    else if IsIndex(a) then true
    else if IsIndex(b) then false
    else LexLeq(a, b)
  }

  /** The UTF-16 code units of a character. */
  function Units(c: char): (units: seq<int>)
    ensures units != []
  {
    var n := c as int;
    if n < 0x10000 then [n] else [0xD800 + (n - 0x10000) / 0x400, 0xDC00 + (n - 0x10000) % 0x400]
  }

  function CodeUnits(s: string): seq<int> {
    if s == [] then [] else Units(s[0]) + CodeUnits(s[1..])
  }

  predicate UnitsLeq(a: seq<int>, b: seq<int>) {
    a == [] || (b != [] && (a[0] < b[0] || (a[0] == b[0] && UnitsLeq(a[1..], b[1..]))))
  }

  lemma {:induction false} UnitsCancel(p: seq<int>, a: seq<int>, b: seq<int>)
    ensures UnitsLeq(p + a, p + b) <==> UnitsLeq(a, b)
  {
    if p == [] {
      assert p + a == a && p + b == b;
    } else {
      assert (p + a)[1..] == p[1..] + a && (p + b)[1..] == p[1..] + b;
      UnitsCancel(p[1..], a, b);
    }
  }

  lemma UnitsDecide(c: char, d: char, x: seq<int>, y: seq<int>)
    requires c != d
    ensures UnitsLeq(Units(c) + x, Units(d) + y) <==> Rank(c) <= Rank(d)
  {
  }

  /** Comparing characters by rank is comparing strings by their UTF-16 code units. */
  lemma {:induction false} RankIsCodeUnitOrder(a: string, b: string)
    ensures LexLeq(a, b) <==> UnitsLeq(CodeUnits(a), CodeUnits(b))
  {
    if a != [] && b != [] {
      if a[0] == b[0] {
        RankIsCodeUnitOrder(a[1..], b[1..]);
        UnitsCancel(Units(a[0]), CodeUnits(a[1..]), CodeUnits(b[1..]));
      } else {
        UnitsDecide(a[0], b[0], CodeUnits(a[1..]), CodeUnits(b[1..]));
      }
    }
  }

  lemma {:induction false} LexOrder(a: string, b: string, c: string)
    ensures LexLeq(a, b) || LexLeq(b, a)
    ensures LexLeq(a, b) && LexLeq(b, a) ==> a == b
    ensures LexLeq(a, b) && LexLeq(b, c) ==> LexLeq(a, c)
  {
    if a != [] && b != [] && c != [] {
      LexOrder(a[1..], b[1..], c[1..]);
    } else if a != [] && b != [] {
      LexOrder(a[1..], b[1..], []);
    }
    if a != [] && b != [] {
      assert a == [a[0]] + a[1..] && b == [b[0]] + b[1..];
    }
  }

  /** The key order is total. */
  lemma KeyOrder(a: string, b: string, c: string)
    ensures KeyLeq(a, b) || KeyLeq(b, a)
    ensures KeyLeq(a, b) && KeyLeq(b, a) ==> a == b
    ensures KeyLeq(a, b) && KeyLeq(b, c) ==> KeyLeq(a, c)
  {
    LexOrder(a, b, c);
  }

  /** An index is the decimal text of a number below 2^32 - 1. */
  lemma IndexIff(k: string)
    ensures IsIndex(k) <==> exists n: nat | n < 0xFFFF_FFFF :: k == Text(n)
  {
    if IsIndex(k) { TextOfNumber(k); }
    if n: nat :| n < 0xFFFF_FFFF && k == Text(n) {
      TextReads(n);
      NoLeadingZero(n);
    }
  }

  /** What the order is: indices by value, before all other keys, and those by their code units. */
  lemma KeyLeqMeans(a: string, b: string)
    ensures IsIndex(a) && IsIndex(b) ==> (KeyLeq(a, b) <==> Number(a) <= Number(b))
    ensures IsIndex(a) && !IsIndex(b) ==> KeyLeq(a, b) && !KeyLeq(b, a)
    ensures !IsIndex(a) && !IsIndex(b) ==> (KeyLeq(a, b) <==> UnitsLeq(CodeUnits(a), CodeUnits(b)))
  {
    RankIsCodeUnitOrder(a, b);
    if IsIndex(a) && IsIndex(b) {
      if |a| == |b| { LexIsNumeric(a, b); } else if |a| < |b| { Shorter(a, b); } else { Shorter(b, a); }
    }
  }

  lemma {:induction false} LexIsNumeric(a: string, b: string)
    requires |a| == |b| && AllDigits(a) && AllDigits(b)
    ensures LexLeq(a, b) <==> Number(a) <= Number(b)
  {
    if a != [] {
      LexIsNumeric(a[1..], b[1..]);
      NumberBound(a[1..]);
      NumberBound(b[1..]);
      PlaceValue(Digit(a[0]), Digit(b[0]), Power10(|a| - 1), Number(a[1..]), Number(b[1..]));
    }
  }

  /** Without leading zeros a shorter digit string is a smaller number. */
  lemma Shorter(a: string, b: string)
    requires IsIndex(a) && IsIndex(b) && |a| < |b|
    ensures Number(a) < Number(b)
  {
    NumberBound(a);
    PowersGrow(|a|, |b| - 1);
    AtLeastPower(Digit(b[0]), Power10(|b| - 1));
  }

  lemma {:induction false} PowersGrow(m: nat, n: nat)
    requires m <= n
    ensures Power10(m) <= Power10(n)
  {
    if m < n { PowersGrow(m, n - 1); }
  }

  lemma AtLeastPower(d: nat, p: nat)
    requires d >= 1
    ensures d * p >= p
  {
  }

  // ---- Sorting ----

  function Insert(key: string, value: Json, ms: Members): Members {
    match ms
    case NoMembers => Member(key, value, NoMembers)
    case Member(k, v, tail) =>
      if KeyLeq(key, k) then Member(key, value, ms) else Member(k, v, Insert(key, value, tail))
  }

  function Sort(v: Json): Json {
    match v
    case JArray(items) => JArray(SortItems(items))
    case JObject(ms) => JObject(SortMembers(ms))
    case _ => v
  }

  function SortItems(items: Items): Items {
    match items
    case NoItems => NoItems
    case Item(head, rest) => Item(Sort(head), SortItems(rest))
  }

  function SortMembers(ms: Members): Members {
    match ms
    case NoMembers => NoMembers
    case Member(k, v, tail) => Insert(k, Sort(v), SortMembers(tail))
  }

  // ---- Equality up to member order, stated without sorting ----

  predicate HasKey(ms: Members, key: string) {
    ms.Member? && (ms.key == key || HasKey(ms.tail, key))
  }

  function ValueOf(ms: Members, key: string): (v: Json)
    requires HasKey(ms, key)
    ensures v < ms
  {
    if ms.key == key then ms.value else ValueOf(ms.tail, key)
  }

  predicate NumberChar(c: char) {
    '0' <= c <= '9' || c == '-' || c == '+' || c == '.' || c == 'e' || c == 'E'
  }

  function DigitRun(t: string): (n: nat)
    ensures n <= |t|
  {
    if t != [] && IsDigit(t[0]) then 1 + DigitRun(t[1..]) else 0
  }

  /** A number by the grammar of section 6: sign, digits without a leading zero, fraction, exponent. */
  predicate NumberToken(t: string) {
    var u := if t != [] && t[0] == '-' then t[1..] else t;
    var n := DigitRun(u);
    n > 0 && (u[0] == '0' ==> n == 1) && FractionToken(u[n..])
  }

  predicate FractionToken(t: string) {
    if t != [] && t[0] == '.' then DigitRun(t[1..]) > 0 && ExponentToken(t[1 + DigitRun(t[1..])..])
    else ExponentToken(t)
  }

  predicate ExponentToken(t: string) {
    t == [] || ((t[0] == 'e' || t[0] == 'E') &&
      var u := if |t| > 1 && (t[1] == '+' || t[1] == '-') then t[2..] else t[1..];
      u != [] && AllDigits(u))
  }

  lemma {:induction false} DigitRunIsDigits(t: string)
    ensures forall i | 0 <= i < DigitRun(t) :: IsDigit(t[i])
  {
    if t != [] && IsDigit(t[0]) { DigitRunIsDigits(t[1..]); }
  }

  lemma TokenChars(t: string)
    requires NumberToken(t)
    ensures t != [] && (IsDigit(t[0]) || t[0] == '-') && forall i | 0 <= i < |t| :: NumberChar(t[i])
  {
    var u := if t[0] == '-' then t[1..] else t;
    var n := DigitRun(u);
    DigitRunIsDigits(u);
    FractionChars(u[n..]);
    assert u == u[..n] + u[n..];
  }

  lemma FractionChars(t: string)
    requires FractionToken(t)
    ensures forall i | 0 <= i < |t| :: NumberChar(t[i])
  {
    if t != [] && t[0] == '.' {
      var n := DigitRun(t[1..]);
      DigitRunIsDigits(t[1..]);
      ExponentChars(t[1 + n..]);
      assert t == [t[0]] + t[1..][..n] + t[1 + n..];
    } else {
      ExponentChars(t);
    }
  }

  lemma ExponentChars(t: string)
    requires ExponentToken(t)
    ensures forall i | 0 <= i < |t| :: NumberChar(t[i])
  {
  }

  /** Objects hold each key once and numbers are number tokens, at every depth. */
  predicate WellFormed(v: Json) {
    match v
    case JNumber(t) => NumberToken(t)
    case JArray(items) => WellFormedItems(items)
    case JObject(ms) => WellFormedMembers(ms)
    case _ => true
  }

  predicate WellFormedItems(items: Items) {
    items.Item? ==> WellFormed(items.head) && WellFormedItems(items.rest)
  }

  predicate WellFormedMembers(ms: Members) {
    ms.Member? ==> WellFormed(ms.value) && !HasKey(ms.tail, ms.key) && WellFormedMembers(ms.tail)
  }

  ghost predicate Equivalent(v: Json, w: Json)
    decreases v
  {
    match v
    case JArray(items) => w.JArray? && EquivalentItems(items, w.items)
    case JObject(ms) =>
      && w.JObject?
      && (forall key :: HasKey(ms, key) <==> HasKey(w.members, key))
      && (forall key | HasKey(ms, key) && HasKey(w.members, key) ::
           Equivalent(ValueOf(ms, key), ValueOf(w.members, key)))
    case _ => v == w
  }

  ghost predicate EquivalentItems(a: Items, b: Items)
    decreases a
  {
    match a
    case NoItems => b.NoItems?
    case Item(head, rest) => b.Item? && Equivalent(head, b.head) && EquivalentItems(rest, b.rest)
  }

  // ---- Sorting is a canonical form ----

  ghost predicate Ordered(ms: Members) {
    ms.Member? ==>
      && Ordered(ms.tail) && !HasKey(ms.tail, ms.key)
      && forall key | HasKey(ms.tail, key) :: KeyLeq(ms.key, key)
  }

  lemma {:induction false} InsertProperties(key: string, value: Json, ms: Members)
    requires Ordered(ms) && !HasKey(ms, key)
    ensures Ordered(Insert(key, value, ms))
    ensures forall k :: HasKey(Insert(key, value, ms), k) <==> k == key || HasKey(ms, k)
    ensures HasKey(Insert(key, value, ms), key) && ValueOf(Insert(key, value, ms), key) == value
    ensures forall k | HasKey(ms, k) ::
      HasKey(Insert(key, value, ms), k) && ValueOf(Insert(key, value, ms), k) == ValueOf(ms, k)
  {
    match ms
    case NoMembers =>
    case Member(k, v, tail) =>
      if KeyLeq(key, k) {
        forall x | HasKey(ms, x) ensures KeyLeq(key, x) { KeyOrder(key, k, x); }
      } else {
        KeyOrder(key, k, k);
        InsertProperties(key, value, tail);
      }
  }

  /** Sorting keeps every key with its own sorted value, and nothing else. */
  lemma {:induction false} SortMembersKeeps(ms: Members)
    requires WellFormedMembers(ms)
    ensures Ordered(SortMembers(ms))
    ensures forall key :: HasKey(SortMembers(ms), key) <==> HasKey(ms, key)
    ensures forall key | HasKey(ms, key) ::
      HasKey(SortMembers(ms), key) && ValueOf(SortMembers(ms), key) == Sort(ValueOf(ms, key))
  {
    match ms
    case NoMembers =>
    case Member(k, v, tail) =>
      SortMembersKeeps(tail);
      InsertProperties(k, Sort(v), SortMembers(tail));
  }

  lemma FirstKey(ms: Members)
    ensures ms.Member? ==> HasKey(ms, ms.key)
  {
  }

  /** Ordered members with the same keys and values are the same members. */
  lemma {:induction false} OrderedUnique(a: Members, b: Members)
    requires Ordered(a) && Ordered(b)
    requires forall key :: HasKey(a, key) <==> HasKey(b, key)
    requires forall key | HasKey(a, key) && HasKey(b, key) :: ValueOf(a, key) == ValueOf(b, key)
    ensures a == b
  {
    if a.NoMembers? {
      FirstKey(b);
    } else {
      assert HasKey(b, a.key) && HasKey(a, b.key);
      KeyOrder(a.key, b.key, a.key);
      assert a.key == b.key;
      assert ValueOf(a, a.key) == ValueOf(b, a.key);
      forall key
        ensures HasKey(a.tail, key) <==> HasKey(b.tail, key)
        ensures HasKey(a.tail, key) && HasKey(b.tail, key) ==> ValueOf(a.tail, key) == ValueOf(b.tail, key)
      {
        assert HasKey(a, key) <==> HasKey(b, key);
        assert HasKey(a.tail, key) ==> key != a.key && HasKey(a, key);
        assert HasKey(b.tail, key) ==> key != b.key && HasKey(b, key);
      }
      OrderedUnique(a.tail, b.tail);
    }
  }

  lemma {:induction false} ValueWellFormed(ms: Members, key: string)
    requires WellFormedMembers(ms) && HasKey(ms, key)
    ensures WellFormed(ValueOf(ms, key))
  {
    if ms.key != key { ValueWellFormed(ms.tail, key); }
  }

  /** Sorted forms are equal exactly for values equal up to member order. */
  lemma {:induction false} SortDecidesEquivalence(v: Json, w: Json)
    requires WellFormed(v) && WellFormed(w)
    ensures Sort(v) == Sort(w) <==> Equivalent(v, w)
    decreases v
  {
    match v
    case JArray(items) => if w.JArray? { SortItemsDecides(items, w.items); }
    case JObject(ms) =>
      if w.JObject? {
        var ns := w.members;
        SortMembersKeeps(ms);
        SortMembersKeeps(ns);
        forall key | HasKey(ms, key) && HasKey(ns, key)
          ensures Sort(ValueOf(ms, key)) == Sort(ValueOf(ns, key)) <==> Equivalent(ValueOf(ms, key), ValueOf(ns, key))
        {
          ValueWellFormed(ms, key);
          ValueWellFormed(ns, key);
          SortDecidesEquivalence(ValueOf(ms, key), ValueOf(ns, key));
        }
        if Equivalent(v, w) { OrderedUnique(SortMembers(ms), SortMembers(ns)); }
        if SortMembers(ms) == SortMembers(ns) {
          forall key ensures HasKey(ms, key) <==> HasKey(ns, key) {
            assert HasKey(SortMembers(ms), key) <==> HasKey(ms, key);
          }
        }
      }
    case _ =>
  }

  lemma {:induction false} SortItemsDecides(a: Items, b: Items)
    requires WellFormedItems(a) && WellFormedItems(b)
    ensures SortItems(a) == SortItems(b) <==> EquivalentItems(a, b)
    decreases a
  {
    if a.Item? && b.Item? {
      SortDecidesEquivalence(a.head, b.head);
      SortItemsDecides(a.rest, b.rest);
    }
  }

  lemma {:induction false} EquivalentReflexive(v: Json)
    ensures Equivalent(v, v)
    decreases v
  {
    match v
    case JArray(items) => EquivalentItemsReflexive(items);
    case JObject(ms) =>
      forall key | HasKey(ms, key) ensures Equivalent(ValueOf(ms, key), ValueOf(ms, key)) {
        EquivalentReflexive(ValueOf(ms, key));
      }
    case _ =>
  }

  lemma {:induction false} EquivalentItemsReflexive(items: Items)
    ensures EquivalentItems(items, items)
    decreases items
  {
    if items.Item? {
      EquivalentReflexive(items.head);
      EquivalentItemsReflexive(items.rest);
    }
  }

  /** Sorting stays among well-formed values and only reorders members. */
  lemma {:induction false} SortIsEquivalent(v: Json)
    requires WellFormed(v)
    ensures WellFormed(Sort(v)) && Equivalent(v, Sort(v))
    decreases v
  {
    match v
    case JArray(items) => SortItemsIsEquivalent(items);
    case JObject(ms) =>
      SortMembersKeeps(ms);
      SortMembersWellFormed(ms);
      forall key | HasKey(ms, key) ensures Equivalent(ValueOf(ms, key), ValueOf(SortMembers(ms), key)) {
        ValueWellFormed(ms, key);
        SortIsEquivalent(ValueOf(ms, key));
      }
    case _ =>
  }

  lemma {:induction false} SortItemsIsEquivalent(items: Items)
    requires WellFormedItems(items)
    ensures WellFormedItems(SortItems(items)) && EquivalentItems(items, SortItems(items))
    decreases items
  {
    if items.Item? {
      SortIsEquivalent(items.head);
      SortItemsIsEquivalent(items.rest);
    }
  }

  lemma {:induction false} SortMembersWellFormed(ms: Members)
    requires WellFormedMembers(ms)
    ensures WellFormedMembers(SortMembers(ms))
    decreases ms
  {
    if ms.Member? {
      SortIsEquivalent(ms.value);
      SortMembersWellFormed(ms.tail);
      SortMembersKeeps(ms.tail);
      InsertWellFormed(ms.key, Sort(ms.value), SortMembers(ms.tail));
    }
  }

  lemma {:induction false} InsertWellFormed(key: string, value: Json, ms: Members)
    requires WellFormedMembers(ms) && WellFormed(value) && Ordered(ms) && !HasKey(ms, key)
    ensures WellFormedMembers(Insert(key, value, ms))
  {
    if ms.Member? && !KeyLeq(key, ms.key) {
      InsertWellFormed(key, value, ms.tail);
      InsertProperties(key, value, ms.tail);
    }
  }

  /** Sorting a sorted value changes nothing. */
  lemma SortIdempotent(v: Json)
    requires WellFormed(v)
    ensures Sort(Sort(v)) == Sort(v)
  {
    SortIsEquivalent(v);
    SortDecidesEquivalence(v, Sort(v));
  }

  // ---- Printing ----

  function Hex(n: int): char
    requires 0 <= n < 16
  {
    if n < 10 then '0' + n as char else 'a' + (n - 10) as char
  }

  function EscapeChar(c: char): string {
    if c == '\"' then "\\\""
    else if c == '\\' then "\\\\"
    else if c as int == 8 then "\\b"
    else if c as int == 9 then "\\t"
    else if c as int == 10 then "\\n"
    else if c as int == 12 then "\\f"
    else if c as int == 13 then "\\r"
    else if (c as int) < 32 then "\\u00" + [Hex(c as int / 16), Hex(c as int % 16)]
    else [c]
  }

  function Escape(s: string): string {
    if s == [] then [] else EscapeChar(s[0]) + Escape(s[1..])
  }

  function Quote(s: string): string {
    "\"" + (Escape(s) + "\"")
  }

  function Pad(n: nat): string {
    seq(n, i => ' ')
  }

  /** A value printed at depth `d`, one space a level. */
  function Render(v: Json, d: nat): string {
    match v
    case JNull => "null"
    case JBool(b) => if b then "true" else "false"
    case JNumber(t) => t
    case JString(s) => Quote(s)
    case JArray(items) => "[" + (if items.NoItems? then "]" else RenderItems(items, d))
    case JObject(ms) => "{" + (if ms.NoMembers? then "}" else RenderMembers(ms, d))
  }

  function RenderItems(items: Items, d: nat): string
    requires items.Item?
  {
    ("\n" + Pad(d + 1)) + (Render(items.head, d + 1) +
      (if items.rest.NoItems? then "\n" + Pad(d) + "]" else "," + RenderItems(items.rest, d)))
  }

  function RenderMembers(ms: Members, d: nat): string
    requires ms.Member?
  {
    ("\n" + Pad(d + 1)) + (Quote(ms.key) + (": " + (Render(ms.value, d + 1) +
      (if ms.tail.NoMembers? then "\n" + Pad(d) + "}" else "," + RenderMembers(ms.tail, d)))))
  }

  /** The text the script writes. */
  function Canonical(v: Json): string {
    Render(Sort(v), 0) + "\n"
  }

  // ---- A reader of JSON texts, by the grammar of RFC 8259 ----

  /** What was read and the text after it, if the text starts with one. */
  datatype Read<T> = Unreadable | Read(value: T, rest: string)

  /** Insignificant blanks: section 2. */
  predicate Blank(c: char) {
    c == ' ' || c as int == 9 || c as int == 10 || c as int == 13
  }

  function SkipBlanks(t: string): (u: string)
    ensures |u| <= |t| && (u != [] ==> !Blank(u[0]))
  {
    if t != [] && Blank(t[0]) then SkipBlanks(t[1..]) else t
  }

  function HexDigit(c: char): (n: int)
    ensures -1 <= n < 16
  {
    if '0' <= c <= '9' then c as int - '0' as int
    else if 'a' <= c <= 'f' then c as int - 'a' as int + 10
    else if 'A' <= c <= 'F' then c as int - 'A' as int + 10
    else -1
  }

  /** The four hexadecimal digits of a code unit. */
  function ReadUnit(t: string): (r: Read<int>)
    ensures r.Read? ==> 0 <= r.value < 0x10000 && |r.rest| < |t|
  {
    if |t| < 4 || HexDigit(t[0]) < 0 || HexDigit(t[1]) < 0 || HexDigit(t[2]) < 0 || HexDigit(t[3]) < 0 then Unreadable
    else Read(0x1000 * HexDigit(t[0]) + 0x100 * HexDigit(t[1]) + 0x10 * HexDigit(t[2]) + HexDigit(t[3]), t[4..])
  }

  /** A character by its code unit, or by the two of a surrogate pair. */
  function ReadUnits(t: string): (r: Read<char>)
    ensures r.Read? ==> |r.rest| < |t|
  {
    var high := ReadUnit(t);
    if high.Unreadable? then Unreadable
    else if high.value < 0xD800 || high.value >= 0xE000 then Read(high.value as char, high.rest)
    else if high.value >= 0xDC00 || |high.rest| < 2 || high.rest[..2] != "\\u" then Unreadable
    else
      var low := ReadUnit(high.rest[2..]);
      if low.Unreadable? || low.value < 0xDC00 || low.value >= 0xE000 then Unreadable
      else Read((0x10000 + (high.value - 0xD800) * 0x400 + (low.value - 0xDC00)) as char, low.rest)
  }

  /** What follows a backslash: section 7. */
  function ReadEscape(t: string): (r: Read<char>)
    ensures r.Read? ==> |r.rest| < |t|
  {
    if t == [] then Unreadable
    else
      match t[0]
      case '\"' => Read('\"', t[1..])
      case '\\' => Read('\\', t[1..])
      case '/' => Read('/', t[1..])
      case 'b' => Read(8 as char, t[1..])
      case 'f' => Read(12 as char, t[1..])
      case 'n' => Read(10 as char, t[1..])
      case 'r' => Read(13 as char, t[1..])
      case 't' => Read(9 as char, t[1..])
      case 'u' => ReadUnits(t[1..])
      case _ => Unreadable
  }

  /** One character of a string; a control character must be escaped. */
  function ReadChar(t: string): (r: Read<char>)
    ensures r.Read? ==> |r.rest| < |t|
  {
    if t == [] || t[0] == '\"' || t[0] as int < 32 then Unreadable
    else if t[0] == '\\' then ReadEscape(t[1..])
    else Read(t[0], t[1..])
  }

  /** The characters up to the closing quote. */
  function ReadChars(t: string): (r: Read<string>)
    ensures r.Read? ==> |r.rest| < |t|
  {
    if t == [] then Unreadable
    else if t[0] == '\"' then Read([], t[1..])
    else
      var c := ReadChar(t);
      if c.Unreadable? then Unreadable
      else
        var more := ReadChars(c.rest);
        if more.Unreadable? then Unreadable else Read([c.value] + more.value, more.rest)
  }

  function NumberRun(t: string): (n: nat)
    ensures n <= |t|
  {
    if t != [] && NumberChar(t[0]) then 1 + NumberRun(t[1..]) else 0
  }

  function ReadNumber(t: string): (r: Read<Json>)
    ensures r.Read? ==> |r.rest| < |t|
  {
    var n := NumberRun(t);
    if NumberToken(t[..n]) then Read(JNumber(t[..n]), t[n..]) else Unreadable
  }

  function ReadLiteral(t: string, word: string, v: Json): (r: Read<Json>)
    requires word != []
    ensures r.Read? ==> |r.rest| < |t|
  {
    if word <= t then Read(v, t[|word|..]) else Unreadable
  }

  /** A value, after blanks: section 3. */
  function ReadValue(t: string): (r: Read<Json>)
    ensures r.Read? ==> |r.rest| < |t|
    decreases |t|, 1
  {
    ReadHere(SkipBlanks(t))
  }

  function ReadHere(t: string): (r: Read<Json>)
    ensures r.Read? ==> |r.rest| < |t|
    decreases |t|, 0
  {
    if t == [] then Unreadable
    else if t[0] == 'n' then ReadLiteral(t, "null", JNull)
    else if t[0] == 't' then ReadLiteral(t, "true", JBool(true))
    else if t[0] == 'f' then ReadLiteral(t, "false", JBool(false))
    else if t[0] == '\"' then
      var s := ReadChars(t[1..]);
      if s.Unreadable? then Unreadable else Read(JString(s.value), s.rest)
    else if t[0] == '[' then
      var next := SkipBlanks(t[1..]);
      if next != [] && next[0] == ']' then Read(JArray(NoItems), next[1..])
      else
        var items := ReadItems(t[1..]);
        if items.Unreadable? then Unreadable else Read(JArray(items.value), items.rest)
    else if t[0] == '{' then
      var next := SkipBlanks(t[1..]);
      if next != [] && next[0] == '}' then Read(JObject(NoMembers), next[1..])
      else
        var ms := ReadMembers(t[1..]);
        if ms.Unreadable? then Unreadable else Read(JObject(ms.value), ms.rest)
    else ReadNumber(t)
  }

  /** The values of an array up to its bracket: section 5. */
  function ReadItems(t: string): (r: Read<Items>)
    ensures r.Read? ==> |r.rest| < |t|
    decreases |t|, 2
  {
    var head := ReadValue(t);
    if head.Unreadable? then Unreadable
    else
      var next := SkipBlanks(head.rest);
      if next != [] && next[0] == ']' then Read(Item(head.value, NoItems), next[1..])
      else if next == [] || next[0] != ',' then Unreadable
      else
        var rest := ReadItems(next[1..]);
        if rest.Unreadable? then Unreadable else Read(Item(head.value, rest.value), rest.rest)
  }

  /** The members of an object up to its brace: section 4. */
  function ReadMembers(t: string): (r: Read<Members>)
    ensures r.Read? ==> |r.rest| < |t|
    decreases |t|, 2
  {
    var start := SkipBlanks(t);
    var key := if start != [] && start[0] == '\"' then ReadChars(start[1..]) else Unreadable;
    if key.Unreadable? then Unreadable
    else
      var colon := SkipBlanks(key.rest);
      if colon == [] || colon[0] != ':' then Unreadable
      else
        var value := ReadValue(colon[1..]);
        if value.Unreadable? then Unreadable
        else
          var next := SkipBlanks(value.rest);
          if next != [] && next[0] == '}' then Read(Member(key.value, value.value, NoMembers), next[1..])
          else if next == [] || next[0] != ',' then Unreadable
          else
            var tail := ReadMembers(next[1..]);
            if tail.Unreadable? then Unreadable else Read(Member(key.value, value.value, tail.value), tail.rest)
  }

  /** A JSON text: one value among blanks. */
  function Parse(t: string): Read<Json> {
    var v := ReadValue(t);
    if v.Read? && SkipBlanks(v.rest) == [] then Read(v.value, []) else Unreadable
  }

  // ---- The printed text reads back ----

  lemma Assoc(a: string, b: string, c: string)
    ensures (a + b) + c == a + (b + c)
  {
  }

  lemma Head(c: char, t: string)
    ensures ([c] + t)[0] == c && ([c] + t)[1..] == t
  {
  }

  lemma EscapeCharReads(c: char, x: string)
    ensures EscapeChar(c) != [] && EscapeChar(c)[0] != '\"'
    ensures ReadChar(EscapeChar(c) + x) == Read(c, x)
  {
    var e := EscapeChar(c);
    var t := e + x;
    assert t[0] == e[0];
    if |e| == 1 {
      assert t[1..] == x;
    } else {
      assert t[1..] == e[1..] + x && t[1..][0] == e[1];
      if |e| == 2 {
        assert t[1..][1..] == x;
      } else {
        var u := t[2..];
        assert t[1..][1..] == u && u[..4] == e[2..] && u[4..] == x;
        assert u[0] == '0' && u[1] == '0' && u[2] == Hex(c as int / 16) && u[3] == Hex(c as int % 16);
        assert ReadUnit(u) == Read(c as int, x);
      }
    }
  }

  lemma {:induction false} CharsRead(s: string, x: string)
    ensures ReadChars(Escape(s) + ("\"" + x)) == Read(s, x)
  {
    Head('\"', x);
    if s == [] {
      assert Escape(s) + ("\"" + x) == "\"" + x;
    } else {
      var more := Escape(s[1..]) + ("\"" + x);
      Assoc(EscapeChar(s[0]), Escape(s[1..]), "\"" + x);
      EscapeCharReads(s[0], more);
      CharsRead(s[1..], x);
      assert s == [s[0]] + s[1..];
      assert (EscapeChar(s[0]) + more)[0] == EscapeChar(s[0])[0];
    }
  }

  /** A quoted string, and what is read of it after its first quote. */
  lemma QuoteReads(s: string, x: string)
    ensures Quote(s) + x != [] && (Quote(s) + x)[0] == '\"' && ReadChars((Quote(s) + x)[1..]) == Read(s, x)
  {
    CharsRead(s, x);
    Assoc("\"", Escape(s) + "\"", x);
    Assoc(Escape(s), "\"", x);
    Head('\"', Escape(s) + ("\"" + x));
  }

  /** What may follow a printed value. */
  predicate Follow(r: string) {
    r == [] || r[0] == ',' || r[0] == '\n'
  }

  lemma {:induction false} NumberRunOf(s: string, r: string)
    requires (forall i | 0 <= i < |s| :: NumberChar(s[i])) && Follow(r)
    ensures NumberRun(s + r) == |s|
  {
    if s == [] {
      assert s + r == r;
    } else {
      assert (s + r)[1..] == s[1..] + r;
      NumberRunOf(s[1..], r);
    }
  }

  lemma NumberReads(s: string, r: string)
    requires NumberToken(s) && Follow(r)
    ensures ReadHere(s + r) == Read(JNumber(s), r)
  {
    TokenChars(s);
    NumberRunOf(s, r);
    assert (s + r)[..|s|] == s && (s + r)[|s|..] == r && (s + r)[0] == s[0];
  }

  lemma {:induction false} SkipsPad(n: nat, t: string)
    requires t != [] && !Blank(t[0])
    ensures SkipBlanks(Pad(n) + t) == t && SkipBlanks("\n" + Pad(n) + t) == t
  {
    if n == 0 {
      assert Pad(0) + t == t;
    } else {
      assert (Pad(n) + t)[1..] == Pad(n - 1) + t && (Pad(n) + t)[0] == ' ';
      SkipsPad(n - 1, t);
    }
    Assoc("\n", Pad(n), t);
    assert ("\n" + Pad(n) + t)[1..] == Pad(n) + t;
  }

  /** A printed value starts with no blank and no closing bracket. */
  lemma RenderStart(v: Json, d: nat, r: string)
    requires WellFormed(v)
    ensures var t := Render(v, d) + r;
      t != [] && !Blank(t[0]) && t[0] != ']' && t[0] != '}' && SkipBlanks(t) == t
  {
    if v.JNumber? { TokenChars(v.token); }
    assert (Render(v, d) + r)[0] == Render(v, d)[0];
  }

  lemma LiteralReads(word: string, v: Json, r: string)
    requires word != []
    ensures ReadLiteral(word + r, word, v) == Read(v, r)
  {
  }

  /** A printed value reads back, whatever separator follows. */
  lemma {:induction false} RenderReads(v: Json, d: nat, r: string)
    requires WellFormed(v) && Follow(r)
    ensures ReadHere(Render(v, d) + r) == Read(v, r)
    decreases v, 0
  {
    var t := Render(v, d) + r;
    match v
    case JNull => LiteralReads("null", v, r);
    case JBool(b) => LiteralReads(if b then "true" else "false", v, r);
    case JNumber(s) => NumberReads(s, r);
    case JString(s) => QuoteReads(s, r);
    case JArray(items) =>
      if items.Item? {
        ItemsRead(items, d, r);
        Assoc("[", RenderItems(items, d), r);
        ArrayReads(items, RenderItems(items, d) + r, r);
      } else {
        assert t == "[" + ("]" + r);
        EmptyReads(r);
      }
    case JObject(ms) =>
      if ms.Member? {
        MembersRead(ms, d, r);
        Assoc("{", RenderMembers(ms, d), r);
        ObjectReads(ms, RenderMembers(ms, d) + r, r);
      } else {
        assert t == "{" + ("}" + r);
        EmptyReads(r);
      }
  }

  lemma EmptyReads(r: string)
    ensures ReadHere("[" + ("]" + r)) == Read(JArray(NoItems), r)
    ensures ReadHere("{" + ("}" + r)) == Read(JObject(NoMembers), r)
  {
    Head('[', "]" + r);
    Head(']', r);
    Head('{', "}" + r);
    Head('}', r);
  }

  lemma ArrayReads(items: Items, t: string, r: string)
    requires ReadItems(t) == Read(items, r) && SkipBlanks(t) != [] && SkipBlanks(t)[0] != ']'
    ensures ReadHere("[" + t) == Read(JArray(items), r)
  {
    Head('[', t);
  }

  lemma ObjectReads(ms: Members, t: string, r: string)
    requires ReadMembers(t) == Read(ms, r) && SkipBlanks(t) != [] && SkipBlanks(t)[0] != '}'
    ensures ReadHere("{" + t) == Read(JObject(ms), r)
  {
    Head('{', t);
  }

  /** After a line break a value is read, up to what follows. */
  lemma {:induction false} IndentedReads(v: Json, n: nat, r: string)
    requires WellFormed(v) && Follow(r)
    ensures var t := "\n" + Pad(n) + (Render(v, n) + r);
      SkipBlanks(t) == Render(v, n) + r && ReadValue(t) == Read(v, r)
    decreases v, 1
  {
    RenderStart(v, n, r);
    SkipsPad(n, Render(v, n) + r);
    RenderReads(v, n, r);
  }

  /** The bracket that ends an array or an object is read after its line break. */
  lemma Closes(d: nat, close: char, r: string)
    requires close == ']' || close == '}'
    ensures Follow(("\n" + Pad(d) + [close]) + r)
    ensures SkipBlanks(("\n" + Pad(d) + [close]) + r) == [close] + r
  {
    SkipsPad(d, [close] + r);
    Assoc("\n" + Pad(d), [close], r);
  }

  lemma {:induction false} ItemsRead(items: Items, d: nat, r: string)
    requires items.Item? && WellFormedItems(items)
    ensures var t := RenderItems(items, d) + r;
      && ReadItems(t) == Read(items, r)
      && SkipBlanks(t) != [] && SkipBlanks(t)[0] != ']'
    decreases items
  {
    var close := "\n" + Pad(d) + "]";
    var x := if items.rest.NoItems? then close else "," + RenderItems(items.rest, d);
    Assoc("\n" + Pad(d + 1), Render(items.head, d + 1) + x, r);
    Assoc(Render(items.head, d + 1), x, r);
    RenderStart(items.head, d + 1, x + r);
    if items.rest.NoItems? {
      Closes(d, ']', r);
      Head(']', r);
    } else {
      ItemsRead(items.rest, d, r);
      Assoc(",", RenderItems(items.rest, d), r);
      Head(',', RenderItems(items.rest, d) + r);
    }
    IndentedReads(items.head, d + 1, x + r);
  }

  lemma {:induction false} MembersRead(ms: Members, d: nat, r: string)
    requires ms.Member? && WellFormedMembers(ms)
    ensures var t := RenderMembers(ms, d) + r;
      && ReadMembers(t) == Read(ms, r)
      && SkipBlanks(t) != [] && SkipBlanks(t)[0] != '}'
    decreases ms, 1
  {
    var y := AfterValue(ms, d, r);
    var w := Render(ms.value, d + 1) + y;
    MembersText(ms, d, r);
    QuoteReads(ms.key, ": " + w);
    SkipsPad(d + 1, Quote(ms.key) + (": " + w));
    AfterValueReads(ms, d, r);
    SpacedReads(ms.value, d + 1, y);
    MemberStep(RenderMembers(ms, d) + r, ms.key, w, ms.value, y);
  }

  lemma {:induction false} AfterValueReads(ms: Members, d: nat, r: string)
    requires ms.Member? && WellFormedMembers(ms)
    ensures Follow(AfterValue(ms, d, r))
    ensures var next := SkipBlanks(AfterValue(ms, d, r));
      && next != []
      && if ms.tail.NoMembers? then next[0] == '}' && next[1..] == r
         else next[0] == ',' && ReadMembers(next[1..]) == Read(ms.tail, r)
    decreases ms, 0
  {
    if ms.tail.NoMembers? {
      Closes(d, '}', r);
      Head('}', r);
    } else {
      MembersRead(ms.tail, d, r);
      Assoc(",", RenderMembers(ms.tail, d), r);
      Head(',', RenderMembers(ms.tail, d) + r);
    }
  }

  /** What follows the value of the first member. */
  function AfterValue(ms: Members, d: nat, r: string): string
    requires ms.Member?
  {
    (if ms.tail.NoMembers? then "\n" + Pad(d) + "}" else "," + RenderMembers(ms.tail, d)) + r
  }

  lemma MembersText(ms: Members, d: nat, r: string)
    requires ms.Member?
    ensures RenderMembers(ms, d) + r ==
      "\n" + Pad(d + 1) + (Quote(ms.key) + (": " + (Render(ms.value, d + 1) + AfterValue(ms, d, r))))
  {
    var x := if ms.tail.NoMembers? then "\n" + Pad(d) + "}" else "," + RenderMembers(ms.tail, d);
    var u := Render(ms.value, d + 1) + x;
    Assoc("\n" + Pad(d + 1), Quote(ms.key) + (": " + u), r);
    Assoc(Quote(ms.key), ": " + u, r);
    Assoc(": ", u, r);
    Assoc(Render(ms.value, d + 1), x, r);
  }

  /** One member is read, and then the brace or the members after the comma. */
  lemma MemberStep(t: string, key: string, w: string, v: Json, y: string)
    requires SkipBlanks(t) == Quote(key) + (": " + w) && ReadValue(" " + w) == Read(v, y)
    requires SkipBlanks(y) != []
    ensures SkipBlanks(y)[0] == '}' ==> ReadMembers(t) == Read(Member(key, v, NoMembers), SkipBlanks(y)[1..])
    ensures SkipBlanks(y)[0] == ',' ==>
      var tail := ReadMembers(SkipBlanks(y)[1..]);
      tail.Read? ==> ReadMembers(t) == Read(Member(key, v, tail.value), tail.rest)
  {
    QuoteReads(key, ": " + w);
    assert (": " + w)[0] == ':' && (": " + w)[1..] == " " + w && SkipBlanks(": " + w) == ": " + w;
  }

  /** After a space too. */
  lemma {:induction false} SpacedReads(v: Json, n: nat, r: string)
    requires WellFormed(v) && Follow(r)
    ensures ReadValue(" " + (Render(v, n) + r)) == Read(v, r)
    decreases v, 1
  {
    var u := Render(v, n) + r;
    RenderStart(v, n, r);
    RenderReads(v, n, r);
    Head(' ', u);
    assert SkipBlanks(" " + u) == u;
  }

  /** The text is JSON, and reads back as the sorted value. */
  lemma CanonicalReads(v: Json)
    requires WellFormed(v)
    ensures Parse(Canonical(v)) == Read(Sort(v), [])
  {
    SortIsEquivalent(v);
    RenderStart(Sort(v), 0, "\n");
    RenderReads(Sort(v), 0, "\n");
    assert SkipBlanks("\n") == SkipBlanks("\n"[1..]) == [];
  }

  /** Printed at one depth and followed by a separator, two values that read alike are alike. */
  lemma RenderDecodes(v: Json, w: Json, d: nat, r: string, q: string)
    requires WellFormed(v) && WellFormed(w) && Follow(r) && Follow(q)
    requires Render(v, d) + r == Render(w, d) + q
    ensures v == w && r == q
  {
    RenderReads(v, d, r);
    RenderReads(w, d, q);
  }

  /** The text is canonical: equal exactly for values equal up to member order. */
  lemma CanonicalDecidesEquivalence(v: Json, w: Json)
    requires WellFormed(v) && WellFormed(w)
    ensures Canonical(v) == Canonical(w) <==> Equivalent(v, w)
  {
    SortDecidesEquivalence(v, w);
    CanonicalReads(v);
    CanonicalReads(w);
  }

  // ---- How the text is laid out ----

  /** A line break and `n` spaces, before something else. */
  predicate Breaks(t: string, n: nat) {
    |t| > n + 1 && t[0] == '\n' && (forall i | 1 <= i <= n :: t[i] == ' ') && !Blank(t[n + 1])
  }

  /**
   * Outside strings, `d` levels in: every member and element stands on a line of
   * its own, indented by one space a level, and so does every closing bracket;
   * empty arrays and objects are closed at once; a colon has one space after it;
   * there are no other blanks but the line break at the end.
   */
  predicate Laid(t: string, d: nat)
    decreases |t|
  {
    if t == [] then false
    else if t[0] == '\"' then
      var s := ReadChars(t[1..]);
      s.Read? && Laid(s.rest, d)
    else if t[0] == '[' || t[0] == '{' then
      if |t| > 1 && t[1] == (if t[0] == '[' then ']' else '}') then Laid(t[2..], d)
      else Breaks(t[1..], d + 1) && Laid(t[d + 3..], d + 1)
    else if t[0] == ',' then Breaks(t[1..], d) && Laid(t[d + 2..], d)
    else if t[0] == ':' then |t| > 2 && t[1] == ' ' && !Blank(t[2]) && Laid(t[2..], d)
    else if t[0] == '\n' then
      if |t| == 1 then d == 0
      else d > 0 && Breaks(t, d - 1) && (t[d] == ']' || t[d] == '}') && Laid(t[d + 1..], d - 1)
    else !Blank(t[0]) && t[0] != ']' && t[0] != '}' && Laid(t[1..], d)
  }

  /** A line of its own, `n` levels in. */
  predicate Opens(t: string, n: nat) { Breaks(t, n) && Laid(t[n + 1..], n) }

  /** Not a mark of the layout. */
  predicate Word(c: char) {
    !Blank(c) && c != '\"' && c != '[' && c != '{' && c != ']' && c != '}' && c != ',' && c != ':'
  }

  lemma {:induction false} WordsLaid(s: string, r: string, d: nat)
    requires (forall i | 0 <= i < |s| :: Word(s[i])) && Laid(r, d)
    ensures Laid(s + r, d)
    decreases |s|
  {
    if s == [] {
      assert s + r == r;
    } else {
      assert (s + r)[1..] == s[1..] + r && (s + r)[0] == s[0];
      WordsLaid(s[1..], r, d);
    }
  }

  lemma {:induction false} RenderLaid(v: Json, d: nat, r: string)
    requires WellFormed(v) && Laid(r, d)
    ensures Laid(Render(v, d) + r, d)
    decreases v
  {
    if v.JArray? {
      ArrayLaid(v.items, d, r);
    } else if v.JObject? {
      ObjectLaid(v.members, d, r);
    } else {
      PlainLaid(v, d, r);
    }
  }

  lemma PlainLaid(v: Json, d: nat, r: string)
    requires WellFormed(v) && Laid(r, d) && !v.JArray? && !v.JObject?
    ensures Laid(Render(v, d) + r, d)
  {
    match v
    case JString(s) => QuoteLaid(s, d, r);
    case JNumber(t) =>
      TokenChars(t);
      WordsLaid(t, r, d);
    case _ => WordsLaid(Render(v, d), r, d);
  }

  lemma {:induction false} ArrayLaid(items: Items, d: nat, r: string)
    requires WellFormedItems(items) && Laid(r, d)
    ensures Laid(Render(JArray(items), d) + r, d)
    decreases items, 2
  {
    if items.NoItems? {
      EmptyLaid("[]", r, d);
    } else {
      ItemsLaid(items, d, r);
      OpenLaid('[', RenderItems(items, d) + r, d);
      Assoc("[", RenderItems(items, d), r);
    }
  }

  lemma {:induction false} ObjectLaid(ms: Members, d: nat, r: string)
    requires WellFormedMembers(ms) && Laid(r, d)
    ensures Laid(Render(JObject(ms), d) + r, d)
    decreases ms, 2
  {
    if ms.NoMembers? {
      EmptyLaid("{}", r, d);
    } else {
      MembersLaid(ms, d, r);
      OpenLaid('{', RenderMembers(ms, d) + r, d);
      Assoc("{", RenderMembers(ms, d), r);
    }
  }

  lemma QuoteLaid(s: string, d: nat, r: string)
    requires Laid(r, d)
    ensures Laid(Quote(s) + r, d)
  {
    QuoteReads(s, r);
  }

  lemma EmptyLaid(t: string, r: string, d: nat)
    requires (t == "[]" || t == "{}") && Laid(r, d)
    ensures Laid(t + r, d)
  {
    assert (t + r)[2..] == r && (t + r)[0] == t[0] && (t + r)[1] == t[1];
  }

  lemma OpenLaid(open: char, t: string, d: nat)
    requires (open == '[' || open == '{') && Opens(t, d + 1)
    ensures Laid([open] + t, d)
  {
    Head(open, t);
    assert ([open] + t)[d + 3..] == t[d + 2..];
  }

  lemma BreaksAt(n: nat, t: string)
    requires t != [] && !Blank(t[0])
    ensures Breaks("\n" + Pad(n) + t, n) && ("\n" + Pad(n) + t)[n + 1..] == t
  {
  }

  lemma OpensAt(n: nat, t: string)
    requires t != [] && !Blank(t[0]) && Laid(t, n)
    ensures Opens("\n" + Pad(n) + t, n)
  {
    BreaksAt(n, t);
  }

  lemma ClosesLaid(d: nat, close: char, r: string)
    requires (close == ']' || close == '}') && Laid(r, d)
    ensures Laid(("\n" + Pad(d) + [close]) + r, d + 1)
  {
    Assoc("\n" + Pad(d), [close], r);
    BreaksAt(d, [close] + r);
    assert (("\n" + Pad(d) + [close]) + r)[d + 2..] == r;
  }

  lemma {:induction false} ItemsLaid(items: Items, d: nat, r: string)
    requires items.Item? && WellFormedItems(items) && Laid(r, d)
    ensures Opens(RenderItems(items, d) + r, d + 1)
    decreases items, 1
  {
    var x := if items.rest.NoItems? then "\n" + Pad(d) + "]" else "," + RenderItems(items.rest, d);
    var u := Render(items.head, d + 1) + (x + r);
    Assoc("\n" + Pad(d + 1), Render(items.head, d + 1) + x, r);
    Assoc(Render(items.head, d + 1), x, r);
    RenderStart(items.head, d + 1, x + r);
    if items.rest.NoItems? {
      ClosesLaid(d, ']', r);
    } else {
      ItemsLaid(items.rest, d, r);
      NextLaid(RenderItems(items.rest, d), d + 1, r);
    }
    RenderLaid(items.head, d + 1, x + r);
    OpensAt(d + 1, u);
  }

  lemma NextLaid(t: string, d: nat, r: string)
    requires Opens(t + r, d)
    ensures Laid(("," + t) + r, d)
  {
    Assoc(",", t, r);
    Head(',', t + r);
    assert ("," + (t + r))[d + 2..] == (t + r)[d + 1..];
  }

  lemma {:induction false} MembersLaid(ms: Members, d: nat, r: string)
    requires ms.Member? && WellFormedMembers(ms) && Laid(r, d)
    ensures Opens(RenderMembers(ms, d) + r, d + 1)
    decreases ms, 1
  {
    AfterValueLaid(ms, d, r);
    MemberLaid(ms, d, AfterValue(ms, d, r));
    MembersText(ms, d, r);
  }

  lemma {:induction false} MemberLaid(ms: Members, d: nat, y: string)
    requires ms.Member? && WellFormed(ms.value) && Laid(y, d + 1)
    ensures Opens("\n" + Pad(d + 1) + (Quote(ms.key) + (": " + (Render(ms.value, d + 1) + y))), d + 1)
    decreases ms, 0
  {
    RenderStart(ms.value, d + 1, y);
    RenderLaid(ms.value, d + 1, y);
    KeyLaid(ms.key, Render(ms.value, d + 1) + y, d + 1);
    OpensAt(d + 1, Quote(ms.key) + (": " + (Render(ms.value, d + 1) + y)));
  }

  lemma {:induction false} AfterValueLaid(ms: Members, d: nat, r: string)
    requires ms.Member? && WellFormedMembers(ms) && Laid(r, d)
    ensures Laid(AfterValue(ms, d, r), d + 1)
    decreases ms, 0
  {
    if ms.tail.NoMembers? {
      ClosesLaid(d, '}', r);
    } else {
      MembersLaid(ms.tail, d, r);
      NextLaid(RenderMembers(ms.tail, d), d + 1, r);
      assert AfterValue(ms, d, r) == ("," + RenderMembers(ms.tail, d)) + r;
    }
  }

  lemma KeyLaid(key: string, t: string, d: nat)
    requires t != [] && !Blank(t[0]) && Laid(t, d)
    ensures var u := Quote(key) + (": " + t);
      u != [] && !Blank(u[0]) && Laid(u, d)
  {
    assert (": " + t)[2..] == t && (": " + t)[2] == t[0];
    QuoteReads(key, ": " + t);
  }

  /** The text is laid out one space a level. */
  lemma CanonicalIsLaid(v: Json)
    requires WellFormed(v)
    ensures Laid(Canonical(v), 0)
  {
    SortIsEquivalent(v);
    RenderLaid(Sort(v), 0, "\n");
  }

  /** Escaped is exactly what section 7 says must be, and in lower case. */
  lemma EscapesWhatItMust(c: char)
    ensures EscapeChar(c) == [c] <==> c != '\"' && c != '\\' && c as int >= 32
    ensures forall i | 0 < i < |EscapeChar(c)| :: !('A' <= EscapeChar(c)[i] <= 'Z')
    ensures |EscapeChar(c)| == 6 <==>
      c as int < 32 && c as int != 8 && !(9 <= c as int <= 10) && !(12 <= c as int <= 13)
  {
  }
}
