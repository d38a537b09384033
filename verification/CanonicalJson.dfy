/**
 The canonical JSON printer that licence signatures are computed over
 (license-service/lib/signing.ts), over 16-bit code units as in ECMAScript strings.
 A decoder recovers the key-sorted value from the printed text, so the text decides
 the value up to the order of object keys, and nothing more.
 */
module CanonicalJson {
  import opened Wrappers
  import opened Decimals

  type CodeUnit = u: int | 0 <= u < 0x10000
  type Units = seq<CodeUnit>

  datatype Json =
    | Null
    | Bool(b: bool)
    | Number(n: int)
    | Str(s: Units)
    | Arr(items: seq<Json>)
    | Obj(members: seq<Member>)

  datatype Member = Member(key: Units, value: Json)

  const QUOTE: CodeUnit := 0x22
  const COMMA: CodeUnit := 0x2c
  const MINUS: CodeUnit := 0x2d
  const COLON: CodeUnit := 0x3a
  const LBRACKET: CodeUnit := 0x5b
  const BACKSLASH: CodeUnit := 0x5c
  const RBRACKET: CodeUnit := 0x5d
  const LETTER_B: CodeUnit := 0x62
  const LETTER_F: CodeUnit := 0x66
  const LETTER_N: CodeUnit := 0x6e
  const LETTER_R: CodeUnit := 0x72
  const LETTER_T: CodeUnit := 0x74
  const LETTER_U: CodeUnit := 0x75
  const LBRACE: CodeUnit := 0x7b
  const RBRACE: CodeUnit := 0x7d
  const NULL_TEXT: Units := [0x6e, 0x75, 0x6c, 0x6c]
  const TRUE_TEXT: Units := [0x74, 0x72, 0x75, 0x65]
  const FALSE_TEXT: Units := [0x66, 0x61, 0x6c, 0x73, 0x65]

  // ---- values

  function Keys(ms: seq<Member>): (ks: seq<Units>)
    ensures |ks| == |ms|
    ensures forall i :: 0 <= i < |ks| ==> ks[i] == ms[i].key
  {
    seq(|ms|, i requires 0 <= i < |ms| => ms[i].key)
  }

  ghost predicate Distinct(ks: seq<Units>) {
    forall i, j :: 0 <= i < j < |ks| ==> ks[i] != ks[j]
  }

  /** Objects hold a key at most once, as ECMAScript objects do. */
  ghost predicate Valid(v: Json) {
    match v
    case Arr(items) => forall i :: 0 <= i < |items| ==> Valid(items[i])
    case Obj(ms) => Distinct(Keys(ms)) && forall i :: 0 <= i < |ms| ==> Valid(ms[i].value)
    case _ => true
  }

  /** Where the member with key k stands. */
  function Position(ms: seq<Member>, k: Units): (i: nat)
    requires k in Keys(ms)
    ensures i < |ms| && ms[i].key == k
  {
    if ms[0].key == k then 0
    else
      assert k in Keys(ms[1..]) by {
        var i :| 0 <= i < |ms| && Keys(ms)[i] == k;
        assert Keys(ms[1..])[i - 1] == k;
      }
      Position(ms[1..], k) + 1
  }

  /** The value stored under key k. */
  function Value(ms: seq<Member>, k: Units): (v: Json)
    requires k in Keys(ms)
    ensures ms decreases to v
    ensures exists i :: 0 <= i < |ms| && ms[i] == Member(k, v)
  {
    ms[Position(ms, k)].value
  }

  /** Equality up to the order of object keys at every depth. */
  ghost predicate SameValue(v: Json, w: Json)
    decreases v
  {
    match (v, w)
    case (Arr(xs), Arr(ys)) => |xs| == |ys| && forall i :: 0 <= i < |xs| ==> SameValue(xs[i], ys[i])
    case (Obj(ms), Obj(ns)) =>
      && (forall k :: k in Keys(ms) <==> k in Keys(ns))
      && SameUnder(Keys(ms), ms, ns)
    case (_, _) => v == w
  }

  /** The two objects agree on the given keys. */
  ghost predicate SameUnder(ks: seq<Units>, ms: seq<Member>, ns: seq<Member>)
    decreases ms
  {
    forall k :: k in ks && k in Keys(ms) && k in Keys(ns) ==> SameValue(Value(ms, k), Value(ns, k))
  }

  // ---- key order: ECMAScript's default sort compares code units

  predicate Less(a: Units, b: Units) {
    b != [] && (a == [] || a[0] < b[0] || (a[0] == b[0] && Less(a[1..], b[1..])))
  }

  lemma {:induction false} LessTotal(a: Units, b: Units)
    ensures a == b || Less(a, b) || Less(b, a)
    ensures !(Less(a, b) && Less(b, a)) && !Less(a, a)
  {
    if a != [] {
      LessTotal(a[1..], a[1..]);
      if b != [] {
        LessTotal(a[1..], b[1..]);
        if a[0] == b[0] && a[1..] == b[1..] {
          assert a == [a[0]] + a[1..] && b == [b[0]] + b[1..];
        }
      }
    }
  }

  lemma {:induction false} LessTransitive(a: Units, b: Units, c: Units)
    requires Less(a, b) && Less(b, c)
    ensures Less(a, c)
  {
    if a != [] && a[0] == b[0] == c[0] {
      LessTransitive(a[1..], b[1..], c[1..]);
    }
  }

  ghost predicate Ascending(ks: seq<Units>) {
    forall i, j :: 0 <= i < j < |ks| ==> Less(ks[i], ks[j])
  }

  function Insert(k: Units, ks: seq<Units>): (r: seq<Units>)
    ensures multiset(r) == multiset(ks) + multiset{k}
  {
    if ks == [] then [k]
    else if Less(ks[0], k) then
      assert ks == [ks[0]] + ks[1..];
      [ks[0]] + Insert(k, ks[1..])
    else [k] + ks
  }

  function Sort(ks: seq<Units>): (r: seq<Units>)
    ensures multiset(r) == multiset(ks)
  {
    if ks == [] then []
    else
      assert ks == [ks[0]] + ks[1..];
      Insert(ks[0], Sort(ks[1..]))
  }

  lemma {:induction false} SameMembers(a: seq<Units>, b: seq<Units>)
    requires multiset(a) == multiset(b)
    ensures forall k :: k in a <==> k in b
  {
    assert forall k :: k in a <==> k in multiset(a);
    assert forall k :: k in b <==> k in multiset(b);
  }

  lemma {:induction false} InsertAscending(k: Units, ks: seq<Units>)
    requires Ascending(ks) && k !in ks
    ensures Ascending(Insert(k, ks))
  {
    if ks != [] {
      LessTotal(k, ks[0]);
      if Less(ks[0], k) {
        InsertAscending(k, ks[1..]);
        var r := Insert(k, ks[1..]);
        forall j | 0 <= j < |r| ensures Less(ks[0], r[j]) {
          assert r[j] in multiset(r);
          if r[j] != k {
            assert r[j] in ks[1..];
          }
        }
      } else {
        forall j | 1 <= j < |ks| ensures Less(k, ks[j]) {
          LessTransitive(k, ks[0], ks[j]);
        }
      }
    }
  }

  lemma {:induction false} SortAscending(ks: seq<Units>)
    requires Distinct(ks)
    ensures Ascending(Sort(ks))
  {
    if ks != [] {
      SortAscending(ks[1..]);
      SameMembers(ks[1..], Sort(ks[1..]));
      assert ks[0] !in ks[1..];
      InsertAscending(ks[0], Sort(ks[1..]));
    }
  }

  /** An ascending list is determined by its members. */
  lemma {:induction false} AscendingUnique(a: seq<Units>, b: seq<Units>)
    requires Ascending(a) && Ascending(b)
    requires forall k :: k in a <==> k in b
    ensures a == b
  {
    assert b != [] ==> b[0] in a;
    if a != [] {
      assert a[0] in b && b != [] && b[0] in a;
      LessTotal(a[0], b[0]);
      assert a[0] == b[0];
      LessTotal(a[0], a[0]);
      assert a == [a[0]] + a[1..] && b == [b[0]] + b[1..];
      assert a[0] !in a[1..] && b[0] !in b[1..];
      forall k ensures k in a[1..] <==> k in b[1..] {
        assert k in a[1..] <==> k in a && k != a[0];
        assert k in b[1..] <==> k in b && k != b[0];
      }
      AscendingUnique(a[1..], b[1..]);
    }
  }

  // ---- the printer

  predicate IsHigh(u: CodeUnit) { 0xd800 <= u < 0xdc00 }
  predicate IsLow(u: CodeUnit) { 0xdc00 <= u < 0xe000 }

  function HexDigit(d: nat): CodeUnit
    requires d < 16
  {
    if d < 10 then 0x30 + d else 0x61 + d - 10
  }

  function HexEscape(u: CodeUnit): Units {
    [BACKSLASH, LETTER_U, HexDigit(u / 4096), HexDigit(u / 256 % 16), HexDigit(u / 16 % 16), HexDigit(u % 16)]
  }

  function EscapeUnit(u: CodeUnit): Units {
    if u == QUOTE || u == BACKSLASH then [BACKSLASH, u]
    else if u == 8 then [BACKSLASH, LETTER_B]
    else if u == 9 then [BACKSLASH, LETTER_T]
    else if u == 10 then [BACKSLASH, LETTER_N]
    else if u == 12 then [BACKSLASH, LETTER_F]
    else if u == 13 then [BACKSLASH, LETTER_R]
    else if u < 0x20 || IsHigh(u) || IsLow(u) then HexEscape(u)
    else [u]
  }

  /** A surrogate pair is copied; a surrogate on its own is written as a unicode escape. */
  function Escaped(s: Units): Units {
    if s == [] then []
    else if |s| > 1 && IsHigh(s[0]) && IsLow(s[1]) then [s[0], s[1]] + Escaped(s[2..])
    else EscapeUnit(s[0]) + Escaped(s[1..])
  }

  function Quote(s: Units): Units {
    [QUOTE] + Escaped(s) + [QUOTE]
  }

  function DigitUnits(n: nat): (t: Units)
    ensures t != [] && forall i :: 0 <= i < |t| ==> IsDigitUnit(t[i])
  {
    seq(|DigitsOf(n)|, i requires 0 <= i < |DigitsOf(n)| => 0x30 + DigitsOf(n)[i])
  }

  function NumberText(n: int): Units {
    if n < 0 then [MINUS] + DigitUnits(-n) else DigitUnits(n)
  }

  function Canonicalize(v: Json): Units
    decreases v, 0
  {
    match v
    case Null => NULL_TEXT
    case Bool(b) => if b then TRUE_TEXT else FALSE_TEXT
    case Number(n) => NumberText(n)
    case Str(s) => Quote(s)
    case Arr(items) => [LBRACKET] + Items(items) + [RBRACKET]
    case Obj(ms) =>
      SameMembers(Keys(ms), Sort(Keys(ms)));
      [LBRACE] + Entries(ms, Sort(Keys(ms))) + [RBRACE]
  }

  function Items(items: seq<Json>): Units
    decreases items, 0
  {
    if items == [] then []
    else Canonicalize(items[0]) + (if |items| == 1 then [] else [COMMA] + Items(items[1..]))
  }

  function Entry(ms: seq<Member>, k: Units): Units
    requires k in Keys(ms)
    decreases ms, 0
  {
    Quote(k) + [COLON] + Canonicalize(Value(ms, k))
  }

  function Entries(ms: seq<Member>, ks: seq<Units>): Units
    requires forall i :: 0 <= i < |ks| ==> ks[i] in Keys(ms)
    decreases ms, 1, |ks|
  {
    if ks == [] then []
    else Entry(ms, ks[0]) + (if |ks| == 1 then [] else [COMMA] + Entries(ms, ks[1..]))
  }

  /** The value with every object's members in ascending key order. */
  function KeySorted(v: Json): Json
    decreases v, 0
  {
    match v
    case Arr(items) => Arr(KeySortedItems(items))
    case Obj(ms) =>
      SameMembers(Keys(ms), Sort(Keys(ms)));
      Obj(KeySortedMembers(ms, Sort(Keys(ms))))
    case _ => v
  }

  function KeySortedItems(items: seq<Json>): (r: seq<Json>)
    ensures |r| == |items|
    ensures forall i :: 0 <= i < |r| ==> r[i] == KeySorted(items[i])
    decreases items, 0
  {
    if items == [] then [] else [KeySorted(items[0])] + KeySortedItems(items[1..])
  }

  function KeySortedMembers(ms: seq<Member>, ks: seq<Units>): (r: seq<Member>)
    requires forall i :: 0 <= i < |ks| ==> ks[i] in Keys(ms)
    ensures |r| == |ks|
    ensures forall i :: 0 <= i < |r| ==> r[i] == Member(ks[i], KeySorted(Value(ms, ks[i])))
    decreases ms, 1, |ks|
  {
    if ks == [] then []
    else [Member(ks[0], KeySorted(Value(ms, ks[0])))] + KeySortedMembers(ms, ks[1..])
  }

  // ---- the decoder

  predicate IsDigitUnit(u: CodeUnit) { 0x30 <= u < 0x3a }

  /** Text after which a number cannot go on. */
  predicate Delimited(t: Units) {
    t == [] || !IsDigitUnit(t[0])
  }

  function DigitRun(t: Units): (n: nat)
    ensures n <= |t|
    ensures forall i :: 0 <= i < n ==> IsDigitUnit(t[i])
    ensures n < |t| ==> !IsDigitUnit(t[n])
  {
    if t == [] || !IsDigitUnit(t[0]) then 0 else 1 + DigitRun(t[1..])
  }

  function ParseNat(t: Units): (r: Option<(nat, Units)>)
    ensures r.Some? ==> |r.value.1| < |t|
  {
    var n := DigitRun(t);
    if n == 0 then None
    else Some((ValueOf(seq(n, i requires 0 <= i < n => (t[i] - 0x30) as nat)), t[n..]))
  }

  function HexValue(u: CodeUnit): (r: Option<nat>)
    ensures r.Some? ==> r.value < 16
  {
    if 0x30 <= u < 0x3a then Some(u - 0x30)
    else if 0x61 <= u < 0x67 then Some(u - 0x61 + 10)
    else None
  }

  /** One code unit of a string's contents, raw or escaped. */
  function ParseUnit(t: Units): (r: Option<(CodeUnit, Units)>)
    requires t != []
    ensures r.Some? ==> |r.value.1| < |t|
  {
    if t[0] != BACKSLASH then Some((t[0], t[1..]))
    else if |t| < 2 then None
    else if t[1] == QUOTE || t[1] == BACKSLASH then Some((t[1], t[2..]))
    else if t[1] == LETTER_B then Some((8, t[2..]))
    else if t[1] == LETTER_T then Some((9, t[2..]))
    else if t[1] == LETTER_N then Some((10, t[2..]))
    else if t[1] == LETTER_F then Some((12, t[2..]))
    else if t[1] == LETTER_R then Some((13, t[2..]))
    else if t[1] == LETTER_U && |t| >= 6 then
      var a :- HexValue(t[2]);
      var b :- HexValue(t[3]);
      var c :- HexValue(t[4]);
      var d :- HexValue(t[5]);
      Some((4096 * a + 256 * b + 16 * c + d, t[6..]))
    else None
  }

  /** A string's contents up to and including the closing quote. */
  function ParseString(t: Units): (r: Option<(Units, Units)>)
    ensures r.Some? ==> |r.value.1| < |t|
    decreases |t|
  {
    if t == [] then None
    else if t[0] == QUOTE then Some(([], t[1..]))
    else
      var (u, rest) :- ParseUnit(t);
      var (s, rest') :- ParseString(rest);
      Some(([u] + s, rest'))
  }

  function ParseValue(t: Units): (r: Option<(Json, Units)>)
    ensures r.Some? ==> |r.value.1| < |t|
    decreases |t|, 1
  {
    if t == [] then None
    else if t[0] == QUOTE then
      var (s, rest) :- ParseString(t[1..]);
      Some((Str(s), rest))
    else if t[0] == LBRACKET then
      if |t| > 1 && t[1] == RBRACKET then Some((Arr([]), t[2..]))
      else
        var (xs, rest) :- ParseItems(t[1..]);
        Some((Arr(xs), rest))
    else if t[0] == LBRACE then
      if |t| > 1 && t[1] == RBRACE then Some((Obj([]), t[2..]))
      else
        var (ms, rest) :- ParseMembers(t[1..]);
        Some((Obj(ms), rest))
    else ParseAtom(t)
  }

  function ParseAtom(t: Units): (r: Option<(Json, Units)>)
    requires t != []
    ensures r.Some? ==> |r.value.1| < |t|
  {
    if t[0] == LETTER_N then ParseLiteral(Null, NULL_TEXT, t)
    else if t[0] == LETTER_T then ParseLiteral(Bool(true), TRUE_TEXT, t)
    else if t[0] == LETTER_F then ParseLiteral(Bool(false), FALSE_TEXT, t)
    else if t[0] == MINUS then
      var (n, rest) :- ParseNat(t[1..]);
      Some((Number(-(n as int)), rest))
    else
      var (n, rest) :- ParseNat(t);
      Some((Number(n), rest))
  }

  function ParseLiteral(v: Json, text: Units, t: Units): (r: Option<(Json, Units)>)
    requires text != []
    ensures r.Some? ==> |r.value.1| < |t|
  {
    if text <= t then Some((v, t[|text|..])) else None
  }

  function ParseItems(t: Units): (r: Option<(seq<Json>, Units)>)
    ensures r.Some? ==> |r.value.1| < |t|
    decreases |t|, 2
  {
    var (v, rest) :- ParseValue(t);
    if rest == [] then None
    else if rest[0] == RBRACKET then Some(([v], rest[1..]))
    else if rest[0] == COMMA then
      var (vs, rest') :- ParseItems(rest[1..]);
      Some(([v] + vs, rest'))
    else None
  }

  function ParseMembers(t: Units): (r: Option<(seq<Member>, Units)>)
    ensures r.Some? ==> |r.value.1| < |t|
    decreases |t|, 2
  {
    if t == [] || t[0] != QUOTE then None
    else
      var (k, rest) :- ParseString(t[1..]);
      if rest == [] || rest[0] != COLON then None
      else
        var (v, rest') :- ParseValue(rest[1..]);
        if rest' == [] then None
        else if rest'[0] == RBRACE then Some(([Member(k, v)], rest'[1..]))
        else if rest'[0] == COMMA then
          var (ms, rest'') :- ParseMembers(rest'[1..]);
          Some(([Member(k, v)] + ms, rest''))
        else None
  }

  // ---- the decoder inverts the printer

  lemma {:induction false} EntryShape<T>(q: T, k: seq<T>, c: T, v: seq<T>, tail: seq<T>)
    ensures [q] + k + [q] + [c] + v + tail == [q] + (k + [q] + ([c] + (v + tail)))
  {
  }

  lemma {:induction false} ListShape<T>(e: seq<T>, c: seq<T>, others: seq<T>, end: seq<T>, rest: seq<T>)
    ensures (e + (c + others)) + end + rest == e + (c + (others + end + rest))
  {
  }

  lemma {:induction false} BracketShape<T>(open: T, body: seq<T>, close: T, rest: seq<T>)
    ensures [open] + body + [close] + rest == [open] + (body + [close] + rest)
  {
  }

  lemma {:induction false} DecodeDigits(n: nat, rest: Units)
    requires Delimited(rest)
    ensures ParseNat(DigitUnits(n) + rest) == Some((n, rest))
  {
    var ds := DigitsOf(n);
    var t := DigitUnits(n) + rest;
    var k := DigitRun(t);
    assert forall i :: 0 <= i < |ds| ==> t[i] == 0x30 + ds[i] && IsDigitUnit(t[i]);
    assert |t| > |ds| ==> t[|ds|] == rest[0];
    assert k == |ds|;
    assert t[k..] == rest;
    assert seq(k, i requires 0 <= i < k => (t[i] - 0x30) as nat) == ds;
    ValueOfDigitsOf(n);
  }

  lemma {:induction false} HexParts(u: nat)
    requires u < 65536
    ensures u / 4096 < 16
    ensures u == 4096 * (u / 4096) + 256 * (u / 256 % 16) + 16 * (u / 16 % 16) + u % 16
  {
    assert u / 256 == u / 4096 * 16 + u / 256 % 16;
    assert u / 16 == u / 256 * 16 + u / 16 % 16;
  }

  lemma {:induction false} DecodeHexDigits(a: nat, b: nat, c: nat, d: nat, rest: Units)
    requires a < 16 && b < 16 && c < 16 && d < 16
    requires 4096 * a + 256 * b + 16 * c + d < 0x10000
    ensures ParseUnit([BACKSLASH, LETTER_U, HexDigit(a), HexDigit(b), HexDigit(c), HexDigit(d)] + rest)
         == Some((4096 * a + 256 * b + 16 * c + d, rest))
  {
    var t := [BACKSLASH, LETTER_U, HexDigit(a), HexDigit(b), HexDigit(c), HexDigit(d)];
    assert (t + rest)[6..] == rest;
  }

  lemma {:induction false} DecodeHex(u: CodeUnit, rest: Units)
    ensures ParseUnit(HexEscape(u) + rest) == Some((u, rest))
  {
    HexParts(u);
    DecodeHexDigits(u / 4096, u / 256 % 16, u / 16 % 16, u % 16, rest);
  }

  lemma {:induction false} DecodeUnit(u: CodeUnit, rest: Units)
    ensures EscapeUnit(u) != []
    ensures EscapeUnit(u)[0] != QUOTE
    ensures ParseUnit(EscapeUnit(u) + rest) == Some((u, rest))
  {
    if EscapeUnit(u) == HexEscape(u) {
      DecodeHex(u, rest);
    } else {
      assert (EscapeUnit(u) + rest)[|EscapeUnit(u)|..] == rest;
    }
  }

  lemma {:induction false} DecodeString(s: Units, rest: Units)
    ensures ParseString(Escaped(s) + [QUOTE] + rest) == Some((s, rest))
    decreases |s|
  {
    if s == [] {
      assert Escaped(s) + [QUOTE] + rest == [QUOTE] + rest;
    } else if |s| > 1 && IsHigh(s[0]) && IsLow(s[1]) {
      DecodeString(s[2..], rest);
      DecodePair(s[0], s[1], Escaped(s[2..]) + [QUOTE] + rest, s[2..], rest);
      PrefixShape([s[0], s[1]], Escaped(s[2..]), [QUOTE], rest);
      assert s == [s[0], s[1]] + s[2..];
    } else {
      DecodeUnit(s[0], Escaped(s[1..]) + [QUOTE] + rest);
      DecodeString(s[1..], rest);
      PrefixShape(EscapeUnit(s[0]), Escaped(s[1..]), [QUOTE], rest);
      assert [s[0]] + s[1..] == s;
    }
  }

  lemma {:induction false} PrefixShape<T>(a: seq<T>, b: seq<T>, c: seq<T>, d: seq<T>)
    ensures a + b + c + d == a + (b + c + d)
  {
  }

  lemma {:induction false} DecodePair(u: CodeUnit, v: CodeUnit, t: Units, s: Units, rest: Units)
    requires IsHigh(u) && IsLow(v)
    requires ParseString(t) == Some((s, rest))
    ensures ParseString([u, v] + t) == Some(([u, v] + s, rest))
  {
    assert ([u, v] + t)[1..] == [v] + t;
    assert ParseString([v] + t) == Some(([v] + s, rest));
    assert [u] + ([v] + s) == [u, v] + s;
  }

  /** No value's text starts like the end of a list. */
  lemma {:induction false} CanonicalFirst(v: Json)
    ensures Canonicalize(v) != []
    ensures Canonicalize(v)[0] != RBRACKET
  {
    if v.Number? {
      assert DigitUnits(if v.n < 0 then -v.n else v.n) != [];
    }
  }

  lemma {:induction false} DecodeLiteral(v: Json, rest: Units)
    requires v.Null? || v.Bool?
    ensures Canonicalize(v) != [] && Canonicalize(v)[0] !in {QUOTE, LBRACKET, LBRACE}
    ensures ParseAtom(Canonicalize(v) + rest) == Some((v, rest))
  {
    var text := Canonicalize(v);
    assert text in {NULL_TEXT, TRUE_TEXT, FALSE_TEXT};
    assert (text + rest)[|text|..] == rest;
  }

  lemma {:induction false} DecodeNumber(n: int, rest: Units)
    requires Delimited(rest)
    ensures NumberText(n) != [] && (NumberText(n)[0] == MINUS || IsDigitUnit(NumberText(n)[0]))
    ensures ParseAtom(NumberText(n) + rest) == Some((Number(n), rest))
  {
    var digits := DigitUnits(if n < 0 then -n else n);
    DecodeDigits(if n < 0 then -n else n, rest);
    if n < 0 {
      assert [MINUS] + digits + rest == [MINUS] + (digits + rest);
    } else {
      assert (digits + rest)[0] == digits[0];
    }
  }

  lemma {:induction false} DecodeStr(s: Units, rest: Units)
    ensures ParseValue(Quote(s) + rest) == Some((Str(s), rest))
  {
    BracketShape(QUOTE, Escaped(s), QUOTE, rest);
    DecodeString(s, rest);
  }

  lemma {:induction false} DecodeArr(items: seq<Json>, rest: Units)
    ensures ParseValue([LBRACKET] + Items(items) + [RBRACKET] + rest) == Some((Arr(KeySortedItems(items)), rest))
    decreases items, 1
  {
    var t := [LBRACKET] + Items(items) + [RBRACKET] + rest;
    BracketShape(LBRACKET, Items(items), RBRACKET, rest);
    if items == [] {
      assert t[2..] == rest;
    } else {
      CanonicalFirst(items[0]);
      assert t[1] == Canonicalize(items[0])[0];
      DecodeItems(items, rest);
    }
  }

  lemma {:induction false} DecodeObj(ms: seq<Member>, ks: seq<Units>, rest: Units)
    requires forall i :: 0 <= i < |ks| ==> ks[i] in Keys(ms)
    ensures ParseValue([LBRACE] + Entries(ms, ks) + [RBRACE] + rest) == Some((Obj(KeySortedMembers(ms, ks)), rest))
    decreases ms, 1, |ks|
  {
    var t := [LBRACE] + Entries(ms, ks) + [RBRACE] + rest;
    BracketShape(LBRACE, Entries(ms, ks), RBRACE, rest);
    if ks == [] {
      assert t[2..] == rest;
    } else {
      assert t[1] == Entry(ms, ks[0])[0] == QUOTE;
      DecodeEntries(ms, ks, rest);
    }
  }

  /** Printing then decoding gives the key-sorted value back, and leaves the text that follows. */
  lemma {:induction false} DecodeCanonical(v: Json, rest: Units)
    requires Delimited(rest)
    ensures ParseValue(Canonicalize(v) + rest) == Some((KeySorted(v), rest))
    decreases v, 2
  {
    match v
    case Str(s) => DecodeStr(s, rest);
    case Arr(items) => DecodeArr(items, rest);
    case Obj(ms) =>
      SameMembers(Keys(ms), Sort(Keys(ms)));
      DecodeObj(ms, Sort(Keys(ms)), rest);
    case Number(n) => DecodeNumber(n, rest);
    case _ => DecodeLiteral(v, rest);
  }

  lemma {:induction false} DecodeItems(items: seq<Json>, rest: Units)
    requires items != []
    ensures ParseItems(Items(items) + [RBRACKET] + rest) == Some((KeySortedItems(items), rest))
    decreases items, 0
  {
    if |items| == 1 {
      DecodeCanonical(items[0], [RBRACKET] + rest);
      assert Items(items) + [RBRACKET] + rest == Canonicalize(items[0]) + ([RBRACKET] + rest);
      assert KeySortedItems(items) == [KeySorted(items[0])];
    } else {
      var tail := Items(items[1..]) + [RBRACKET] + rest;
      ListShape(Canonicalize(items[0]), [COMMA], Items(items[1..]), [RBRACKET], rest);
      DecodeCanonical(items[0], [COMMA] + tail);
      DecodeItems(items[1..], rest);
    }
  }

  lemma {:induction false} DecodeEntry(k: Units, v: Json, tail: Units)
    requires Delimited(tail)
    requires ParseValue(Canonicalize(v) + tail) == Some((KeySorted(v), tail))
    requires tail != []
    ensures ParseMembers(Quote(k) + [COLON] + Canonicalize(v) + tail) ==
            if tail[0] == RBRACE then Some(([Member(k, KeySorted(v))], tail[1..]))
            else if tail[0] == COMMA then
              match ParseMembers(tail[1..])
              case None => None
              case Some((ms, rest)) => Some(([Member(k, KeySorted(v))] + ms, rest))
            else None
  {
    var afterKey := [COLON] + (Canonicalize(v) + tail);
    EntryShape(QUOTE, Escaped(k), COLON, Canonicalize(v), tail);
    DecodeString(k, afterKey);
  }

  lemma {:induction false} DecodeEntries(ms: seq<Member>, ks: seq<Units>, rest: Units)
    requires ks != []
    requires forall i :: 0 <= i < |ks| ==> ks[i] in Keys(ms)
    ensures ParseMembers(Entries(ms, ks) + [RBRACE] + rest) == Some((KeySortedMembers(ms, ks), rest))
    decreases ms, 0, |ks|
  {
    var v := Value(ms, ks[0]);
    var tail := if |ks| == 1 then [RBRACE] + rest else [COMMA] + (Entries(ms, ks[1..]) + [RBRACE] + rest);
    EntriesStep(ms, ks, rest, tail);
    DecodeCanonical(v, tail);
    DecodeEntry(ks[0], v, tail);
    if |ks| == 1 {
      assert KeySortedMembers(ms, ks) == [Member(ks[0], KeySorted(v))];
    } else {
      assert tail[1..] == Entries(ms, ks[1..]) + [RBRACE] + rest;
      DecodeEntries(ms, ks[1..], rest);
    }
  }

  lemma {:induction false} EntriesStep(ms: seq<Member>, ks: seq<Units>, rest: Units, tail: Units)
    requires ks != []
    requires forall i :: 0 <= i < |ks| ==> ks[i] in Keys(ms)
    requires tail == if |ks| == 1 then [RBRACE] + rest else [COMMA] + (Entries(ms, ks[1..]) + [RBRACE] + rest)
    ensures Entries(ms, ks) + [RBRACE] + rest == Quote(ks[0]) + [COLON] + Canonicalize(Value(ms, ks[0])) + tail
  {
    if |ks| > 1 {
      ListShape(Entry(ms, ks[0]), [COMMA], Entries(ms, ks[1..]), [RBRACE], rest);
    }
  }

  // ---- the text decides the value up to key order

  lemma {:induction false} SameKeySorted(v: Json, w: Json)
    requires Valid(v) && Valid(w)
    ensures SameValue(v, w) <==> KeySorted(v) == KeySorted(w)
    decreases v
  {
    match (v, w)
    case (Arr(xs), Arr(ys)) =>
      forall i | 0 <= i < |xs| && |xs| == |ys| ensures SameValue(xs[i], ys[i]) <==> KeySorted(xs[i]) == KeySorted(ys[i]) {
        SameKeySorted(xs[i], ys[i]);
      }
    case (Obj(ms), Obj(ns)) => SameKeySortedObjects(ms, ns);
    case (_, _) =>
  }

  lemma {:induction false} SameKeySortedObjects(ms: seq<Member>, ns: seq<Member>)
    requires Valid(Obj(ms)) && Valid(Obj(ns))
    ensures SameValue(Obj(ms), Obj(ns)) <==> KeySorted(Obj(ms)) == KeySorted(Obj(ns))
    decreases ms, 1
  {
    var ks, ls := Sort(Keys(ms)), Sort(Keys(ns));
    SortKeysDecides(Keys(ms), Keys(ns));
    KeySortedMembersKeys(ms);
    KeySortedMembersKeys(ns);
    if ks == ls {
      SameUnderKeySorted(ks, ms, ns);
      SameUnderSorted(ms, ns);
      KeySortedMembersAgree(ms, ns, ks);
    }
  }

  lemma {:induction false} SameUnderSorted(ms: seq<Member>, ns: seq<Member>)
    ensures SameUnder(Keys(ms), ms, ns) <==> SameUnder(Sort(Keys(ms)), ms, ns)
  {
    SameMembers(Keys(ms), Sort(Keys(ms)));
  }

  lemma {:induction false} SameUnderKeySorted(ks: seq<Units>, ms: seq<Member>, ns: seq<Member>)
    requires Valid(Obj(ms)) && Valid(Obj(ns))
    requires forall k :: k in ks ==> k in Keys(ms) && k in Keys(ns)
    ensures SameUnder(ks, ms, ns) <==> forall k :: k in ks ==> KeySorted(Value(ms, k)) == KeySorted(Value(ns, k))
    decreases ms, 0
  {
    forall k | k in ks
      ensures SameValue(Value(ms, k), Value(ns, k)) <==> KeySorted(Value(ms, k)) == KeySorted(Value(ns, k))
    {
      SameKeySorted(Value(ms, k), Value(ns, k));
    }
  }

  lemma {:induction false} SortKeysDecides(ks: seq<Units>, ls: seq<Units>)
    requires Distinct(ks) && Distinct(ls)
    ensures Sort(ks) == Sort(ls) <==> forall k :: k in ks <==> k in ls
  {
    SameMembers(ks, Sort(ks));
    SameMembers(ls, Sort(ls));
    if forall k :: k in ks <==> k in ls {
      SortAscending(ks);
      SortAscending(ls);
      AscendingUnique(Sort(ks), Sort(ls));
    }
  }

  lemma {:induction false} KeySortedMembersKeys(ms: seq<Member>)
    ensures forall i :: 0 <= i < |Sort(Keys(ms))| ==> Sort(Keys(ms))[i] in Keys(ms)
    ensures KeySorted(Obj(ms)) == Obj(KeySortedMembers(ms, Sort(Keys(ms))))
    ensures Keys(KeySortedMembers(ms, Sort(Keys(ms)))) == Sort(Keys(ms))
  {
    SameMembers(Keys(ms), Sort(Keys(ms)));
  }

  lemma {:induction false} KeySortedMembersAgree(ms: seq<Member>, ns: seq<Member>, ks: seq<Units>)
    requires forall i :: 0 <= i < |ks| ==> ks[i] in Keys(ms) && ks[i] in Keys(ns)
    ensures KeySortedMembers(ms, ks) == KeySortedMembers(ns, ks)
       <==> forall k :: k in ks ==> KeySorted(Value(ms, k)) == KeySorted(Value(ns, k))
  {
    var ps, qs := KeySortedMembers(ms, ks), KeySortedMembers(ns, ks);
    if ps == qs {
      forall k | k in ks ensures KeySorted(Value(ms, k)) == KeySorted(Value(ns, k)) {
        var i :| 0 <= i < |ks| && ks[i] == k;
        assert ps[i] == qs[i];
      }
    }
  }

  /** The text is a function of the key-sorted value alone. */
  lemma {:induction false} CanonicalOfKeySorted(v: Json, w: Json)
    requires KeySorted(v) == KeySorted(w)
    ensures Canonicalize(v) == Canonicalize(w)
    decreases v, 1
  {
    match (v, w)
    case (Arr(xs), Arr(ys)) =>
      assert |xs| == |KeySortedItems(xs)| == |ys|;
      CanonicalItemsOfKeySorted(xs, ys);
    case (Obj(ms), Obj(ns)) =>
      KeySortedMembersKeys(ms);
      KeySortedMembersKeys(ns);
      CanonicalEntriesOfKeySorted(ms, ns, Sort(Keys(ms)));
    case (_, _) =>
  }

  lemma {:induction false} CanonicalItemsOfKeySorted(xs: seq<Json>, ys: seq<Json>)
    requires KeySortedItems(xs) == KeySortedItems(ys)
    ensures Items(xs) == Items(ys)
    decreases xs, 0
  {
    assert |xs| == |KeySortedItems(xs)| == |ys|;
    if xs != [] {
      assert KeySorted(xs[0]) == KeySortedItems(xs)[0] == KeySorted(ys[0]);
      CanonicalOfKeySorted(xs[0], ys[0]);
      assert KeySortedItems(xs[1..]) == KeySortedItems(xs)[1..] == KeySortedItems(ys[1..]);
      CanonicalItemsOfKeySorted(xs[1..], ys[1..]);
    }
  }

  lemma {:induction false} CanonicalEntriesOfKeySorted(ms: seq<Member>, ns: seq<Member>, ks: seq<Units>)
    requires forall i :: 0 <= i < |ks| ==> ks[i] in Keys(ms) && ks[i] in Keys(ns)
    requires KeySortedMembers(ms, ks) == KeySortedMembers(ns, ks)
    ensures Entries(ms, ks) == Entries(ns, ks)
    decreases ms, 0, |ks|
  {
    if ks != [] {
      assert KeySortedMembers(ms, ks)[0] == KeySortedMembers(ns, ks)[0];
      CanonicalOfKeySorted(Value(ms, ks[0]), Value(ns, ks[0]));
      assert KeySortedMembers(ms, ks[1..]) == KeySortedMembers(ms, ks)[1..] == KeySortedMembers(ns, ks[1..]);
      CanonicalEntriesOfKeySorted(ms, ns, ks[1..]);
    }
  }

  /** Two values print alike exactly when they are equal up to the order of object keys. */
  lemma {:induction false} CanonicalDecides(v: Json, w: Json)
    requires Valid(v) && Valid(w)
    ensures Canonicalize(v) == Canonicalize(w) <==> SameValue(v, w)
  {
    SameKeySorted(v, w);
    if Canonicalize(v) == Canonicalize(w) {
      DecodeCanonical(v, []);
      DecodeCanonical(w, []);
      assert Canonicalize(v) + [] == Canonicalize(w) + [];
    } else if SameValue(v, w) {
      CanonicalOfKeySorted(v, w);
    }
  }

  // ---- the order of the keys, unit by unit

  /** a comes before b: the two agree on k units, and then a ends or has the lower one. */
  predicate ComesBefore(a: Units, b: Units, k: nat) {
    k <= |a| && k < |b| && a[..k] == b[..k] && (k == |a| || a[k] < b[k])
  }

  ghost predicate IsBefore(a: Units, b: Units) {
    exists k: nat :: ComesBefore(a, b, k)
  }

  ghost predicate InUnitOrder(ks: seq<Units>) {
    forall i, j :: 0 <= i < j < |ks| ==> IsBefore(ks[i], ks[j])
  }

  lemma {:induction false} LessComesBefore(a: Units, b: Units) returns (k: nat)
    requires Less(a, b)
    ensures ComesBefore(a, b, k)
  {
    if a == [] || a[0] < b[0] {
      k := 0;
    } else {
      var n := LessComesBefore(a[1..], b[1..]);
      k := n + 1;
      assert a[..k] == [a[0]] + a[1..][..n] && b[..k] == [b[0]] + b[1..][..n];
    }
  }

  /** Sorted keys are the same keys, each before the next where the two first differ. */
  lemma {:induction false} SortInUnitOrder(ks: seq<Units>)
    requires Distinct(ks)
    ensures multiset(Sort(ks)) == multiset(ks)
    ensures InUnitOrder(Sort(ks))
  {
    SortAscending(ks);
    var r := Sort(ks);
    forall i, j | 0 <= i < j < |r| ensures IsBefore(r[i], r[j]) {
      var k := LessComesBefore(r[i], r[j]);
      assert ComesBefore(r[i], r[j], k);
    }
  }

  /** Every object's keys are in that order, at every depth. */
  ghost predicate KeysInOrder(v: Json) {
    match v
    case Arr(items) => forall i :: 0 <= i < |items| ==> KeysInOrder(items[i])
    case Obj(ms) => InUnitOrder(Keys(ms)) && forall i :: 0 <= i < |ms| ==> KeysInOrder(ms[i].value)
    case _ => true
  }

  lemma {:induction false} KeySortedInOrder(v: Json)
    requires Valid(v)
    ensures KeysInOrder(KeySorted(v))
    decreases v
  {
    match v
    case Arr(items) =>
      var sorted := KeySortedItems(items);
      forall i | 0 <= i < |sorted| ensures KeysInOrder(sorted[i]) {
        KeySortedInOrder(items[i]);
      }
      assert KeysInOrder(Arr(sorted));
    case Obj(ms) =>
      KeySortedMembersKeys(ms);
      SortInUnitOrder(Keys(ms));
      var ks := Sort(Keys(ms));
      var ns := KeySortedMembers(ms, ks);
      forall i | 0 <= i < |ns| ensures KeysInOrder(ns[i].value) {
        KeySortedInOrder(Value(ms, ks[i]));
        assert ns[i] == Member(ks[i], KeySorted(Value(ms, ks[i])));
      }
      assert Keys(ns) == ks;
      assert KeysInOrder(Obj(ns));
    case _ =>
  }

  /** The printed text, read again, has its keys in order at every depth. */
  lemma {:induction false} PrintedKeysInOrder(v: Json)
    requires Valid(v)
    ensures var r := ParseValue(Canonicalize(v));
            r.Some? && r.value.1 == [] && KeysInOrder(r.value.0)
  {
    DecodeCanonical(v, []);
    assert Canonicalize(v) + [] == Canonicalize(v);
    KeySortedInOrder(v);
  }

  // ---- which characters are escaped, and how the parts are spelled

  predicate HasShortEscape(u: CodeUnit) {
    u == 0x22 || u == 0x5c || u == 8 || u == 9 || u == 10 || u == 12 || u == 13
  }

  /** No character is written longer than it need be: most stand for themselves, seven have short escapes. */
  lemma {:induction false} EscapeLengths(u: CodeUnit)
    ensures |EscapeUnit(u)| == if HasShortEscape(u) then 2 else if u < 0x20 || 0xd800 <= u <= 0xdfff then 6 else 1
  {
  }

  function Ascii(s: string): (t: Units)
    requires forall i :: 0 <= i < |s| ==> s[i] as int < 0x80
    ensures |t| == |s|
    ensures forall i :: 0 <= i < |t| ==> t[i] == s[i] as int
  {
    seq(|s|, i requires 0 <= i < |s| => s[i] as int)
  }

  lemma {:induction false} SpelledLiterals()
    ensures Canonicalize(Null) == Ascii("null")
    ensures Canonicalize(Bool(true)) == Ascii("true") && Canonicalize(Bool(false)) == Ascii("false")
    ensures Canonicalize(Number(0)) == Ascii("0") && Canonicalize(Number(-20)) == Ascii("-20")
    ensures Canonicalize(Arr([])) == Ascii("[]") && Canonicalize(Obj([])) == Ascii("{}")
  {
    assert DigitsOf(20) == [2, 0];
  }

  lemma {:induction false} EscapedOne(u: CodeUnit)
    ensures Escaped([u]) == EscapeUnit(u)
  {
    assert [u][1..] == [];
  }

  /** The spelling of strings and of every kind of escape. */
  lemma {:induction false} SpelledStrings()
    ensures Canonicalize(Str([0x61])) == [0x22, 0x61, 0x22]
    ensures EscapeUnit(0x22) == [0x5c, 0x22] && EscapeUnit(0x5c) == [0x5c, 0x5c]
    ensures EscapeUnit(8) == [0x5c, 0x62] && EscapeUnit(9) == [0x5c, 0x74] && EscapeUnit(10) == [0x5c, 0x6e]
    ensures EscapeUnit(12) == [0x5c, 0x66] && EscapeUnit(13) == [0x5c, 0x72]
    ensures EscapeUnit(0x1f) == [0x5c, 0x75, 0x30, 0x30, 0x31, 0x66]
  {
    EscapedOne(0x61);
  }

  /** A list of two, mark by mark: [v,w] */
  lemma {:induction false} SpelledPair(v: Json, w: Json)
    ensures Canonicalize(Arr([v, w])) == [0x5b] + (Canonicalize(v) + ([0x2c] + Canonicalize(w))) + [0x5d]
  {
    ItemsOfTwo(v, w);
  }

  lemma {:induction false} ItemsOfTwo(v: Json, w: Json)
    ensures Items([v, w]) == Canonicalize(v) + ([0x2c] + Canonicalize(w))
  {
    assert [v, w][1..] == [w];
    assert Items([w]) == Canonicalize(w) + [];
  }

  lemma {:induction false} BeforeIsLess(a: Units, b: Units, k: nat)
    requires ComesBefore(a, b, k)
    ensures Less(a, b)
  {
    if k > 0 {
      assert a[0] == a[..k][0] == b[..k][0] == b[0];
      assert a[1..][..k - 1] == a[..k][1..] && b[1..][..k - 1] == b[..k][1..];
      BeforeIsLess(a[1..], b[1..], k - 1);
    }
  }

  /** An object of two, mark by mark, in whatever order they come: {"k":v,"l":w} with the key that comes before first. */
  lemma {:induction false} SpelledObject(k: Units, v: Json, l: Units, w: Json)
    requires IsBefore(k, l)
    ensures Canonicalize(Obj([Member(l, w), Member(k, v)]))
         == [0x7b] + ((Canonicalize(Str(k)) + [0x3a] + Canonicalize(v))
              + ([0x2c] + (Canonicalize(Str(l)) + [0x3a] + Canonicalize(w)))) + [0x7d]
  {
    var ms := [Member(l, w), Member(k, v)];
    var n: nat :| ComesBefore(k, l, n);
    BeforeIsLess(k, l, n);
    TwoSorted(k, l);
    TwoEntries(ms, k, v, l, w);
    assert Keys(ms) == [l, k];
  }

  lemma {:induction false} TwoEntries(ms: seq<Member>, k: Units, v: Json, l: Units, w: Json)
    requires ms == [Member(l, w), Member(k, v)] && k != l
    ensures k in Keys(ms) && l in Keys(ms)
    ensures Entries(ms, [k, l])
         == (Canonicalize(Str(k)) + [0x3a] + Canonicalize(v)) + ([0x2c] + (Canonicalize(Str(l)) + [0x3a] + Canonicalize(w)))
  {
    assert Keys(ms)[0] == l && Keys(ms)[1] == k;
    assert ms[1..] == [Member(k, v)];
    assert Value(ms, l) == w && Value(ms, k) == v;
    assert [k, l][1..] == [l];
    assert Entries(ms, [l]) == Entry(ms, l) + [];
  }

  lemma {:induction false} TwoSorted(k: Units, l: Units)
    requires Less(k, l)
    ensures Sort([l, k]) == [k, l] && k != l
  {
    LessTotal(k, l);
    assert [l, k][1..] == [k];
    var none: seq<Units> := [];
    assert [k][1..] == none;
    assert Sort([k]) == [k];
    assert Insert(l, none) == [l];
    assert Insert(l, [k]) == [k] + Insert(l, [k][1..]) == [k, l];
  }
}
