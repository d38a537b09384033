/**
 The bytes a licence signature covers: the canonical text in UTF-8
 (license-service/lib/signing.ts, signLicense). Node replaces a surrogate that stands
 alone by U+FFFD when it encodes, so the encoding alone loses information; canonical
 text never holds one, and so the signed bytes still decide the value.
 */
module SignedBytes {
  import opened CanonicalJson

  type Byte = b: int | 0 <= b < 0x100

  /** Surrogates only in pairs, a high one before a low one. */
  ghost predicate Paired(t: Units) {
    forall i :: 0 <= i < |t| ==> PairedAt(t, i)
  }

  ghost predicate PairedAt(t: Units, i: nat)
    requires i < |t|
  {
    && (IsHigh(t[i]) ==> i + 1 < |t| && IsLow(t[i + 1]))
    && (IsLow(t[i]) ==> i > 0 && IsHigh(t[i - 1]))
  }

  lemma {:induction false} PairedConcat(a: Units, b: Units)
    requires Paired(a) && Paired(b)
    ensures Paired(a + b)
  {
    forall i | 0 <= i < |a + b| ensures PairedAt(a + b, i) {
      if i < |a| {
        assert PairedAt(a, i);
      } else {
        assert PairedAt(b, i - |a|);
      }
    }
  }

  lemma {:induction false} PairedPlain(t: Units)
    requires forall i :: 0 <= i < |t| ==> !IsHigh(t[i]) && !IsLow(t[i])
    ensures Paired(t)
  {
  }

  lemma {:induction false} PairedEscape(u: CodeUnit)
    ensures Paired(EscapeUnit(u))
  {
    PairedPlain(EscapeUnit(u));
  }

  lemma {:induction false} PairedAscii(u: CodeUnit)
    requires u < 0x80
    ensures Paired([u])
  {
  }

  lemma {:induction false} PairedBetween(open: CodeUnit, body: Units, close: CodeUnit)
    requires open < 0x80 && close < 0x80 && Paired(body)
    ensures Paired([open] + body + [close])
  {
    PairedAscii(open);
    PairedAscii(close);
    PairedConcat([open], body);
    PairedConcat([open] + body, [close]);
  }

  lemma {:induction false} PairedList(a: Units, separator: CodeUnit, b: Units)
    requires Paired(a) && Paired(b) && separator < 0x80
    ensures Paired(a + [separator] + b)
    ensures a + [separator] + b == a + ([separator] + b)
  {
    PairedAscii(separator);
    PairedConcat(a, [separator]);
    PairedConcat(a + [separator], b);
  }

  lemma {:induction false} EscapedPaired(s: Units)
    ensures Paired(Escaped(s))
    decreases |s|
  {
    if s != [] {
      if |s| > 1 && IsHigh(s[0]) && IsLow(s[1]) {
        EscapedPaired(s[2..]);
        var pair := [s[0], s[1]];
        assert PairedAt(pair, 0) && PairedAt(pair, 1);
        PairedConcat(pair, Escaped(s[2..]));
      } else {
        EscapedPaired(s[1..]);
        PairedEscape(s[0]);
        PairedConcat(EscapeUnit(s[0]), Escaped(s[1..]));
      }
    }
  }

  predicate IsPlain(u: CodeUnit) { u >= 0x20 && u != 0x22 && u != 0x5c }

  /**
   Text is printed as it stands exactly when its surrogates are paired and it holds no
   control character, quote or backslash; it is never shortened.
   */
  lemma {:induction false} EscapedIsSame(s: Units)
    ensures Escaped(s) == s <==> Paired(s) && forall i :: 0 <= i < |s| ==> IsPlain(s[i])
    ensures |Escaped(s)| >= |s|
    decreases |s|
  {
    if s != [] {
      if |s| > 1 && IsHigh(s[0]) && IsLow(s[1]) {
        EscapedIsSame(s[2..]);
        FrontSame([s[0], s[1]], s[2..], [s[0], s[1]], Escaped(s[2..]));
        FrontPaired([s[0], s[1]], s[2..]);
        assert [s[0], s[1]] + s[2..] == s;
      } else {
        EscapedIsSame(s[1..]);
        EscapeLengths(s[0]);
        FrontSame([s[0]], s[1..], EscapeUnit(s[0]), Escaped(s[1..]));
        LonePaired(s);
        assert [s[0]] + s[1..] == s;
      }
    }
  }

  lemma {:induction false} FrontSame(a: Units, b: Units, c: Units, d: Units)
    requires |c| >= |a| && |d| >= |b|
    ensures c + d == a + b <==> c == a && d == b
    ensures |c + d| >= |a + b|
  {
    if c + d == a + b {
      assert c == (c + d)[..|a|] && a == (a + b)[..|a|];
      assert d == (c + d)[|c|..] && b == (a + b)[|a|..];
    }
  }

  lemma {:induction false} FrontPaired(pair: Units, s: Units)
    requires |pair| == 2 && IsHigh(pair[0]) && IsLow(pair[1])
    ensures Paired(pair + s) <==> Paired(s)
  {
    assert PairedAt(pair, 0) && PairedAt(pair, 1);
    if Paired(s) {
      PairedConcat(pair, s);
    }
    if Paired(pair + s) {
      forall i | 0 <= i < |s| ensures PairedAt(s, i) {
        assert PairedAt(pair + s, i + 2);
      }
    }
  }

  /** A text that begins with no pair: its first unit must not be a surrogate. */
  lemma {:induction false} LonePaired(s: Units)
    requires s != [] && !(|s| > 1 && IsHigh(s[0]) && IsLow(s[1]))
    ensures Paired(s) <==> !IsHigh(s[0]) && !IsLow(s[0]) && Paired(s[1..])
  {
    if Paired(s) {
      assert PairedAt(s, 0);
      forall i | 0 <= i < |s[1..]| ensures PairedAt(s[1..], i) {
        assert PairedAt(s, i + 1);
      }
    }
    if !IsHigh(s[0]) && !IsLow(s[0]) && Paired(s[1..]) {
      PairedPlain([s[0]]);
      PairedConcat([s[0]], s[1..]);
      assert [s[0]] + s[1..] == s;
    }
  }

  lemma {:induction false} QuotePaired(s: Units)
    ensures Paired(Quote(s))
  {
    EscapedPaired(s);
    PairedBetween(QUOTE, Escaped(s), QUOTE);
  }

  lemma {:induction false} CanonicalPaired(v: Json)
    ensures Paired(Canonicalize(v))
    decreases v, 1
  {
    match v
    case Str(s) => QuotePaired(s);
    case Arr(items) =>
      ItemsPaired(items);
      PairedBetween(LBRACKET, Items(items), RBRACKET);
    case Obj(ms) =>
      SameMembers(Keys(ms), Sort(Keys(ms)));
      EntriesPaired(ms, Sort(Keys(ms)));
      PairedBetween(LBRACE, Entries(ms, Sort(Keys(ms))), RBRACE);
    case Number(n) =>
      var digits := DigitUnits(if n < 0 then -n else n);
      PairedPlain(digits);
      PairedAscii(MINUS);
      PairedConcat([MINUS], digits);
    case _ =>
  }

  lemma {:induction false} ItemsPaired(items: seq<Json>)
    ensures Paired(Items(items))
    decreases items, 0
  {
    if items != [] {
      CanonicalPaired(items[0]);
      if |items| > 1 {
        ItemsPaired(items[1..]);
        PairedList(Canonicalize(items[0]), COMMA, Items(items[1..]));
      } else {
        assert Items(items) == Canonicalize(items[0]);
      }
    }
  }

  lemma {:induction false} EntriesPaired(ms: seq<Member>, ks: seq<Units>)
    requires forall i :: 0 <= i < |ks| ==> ks[i] in Keys(ms)
    ensures Paired(Entries(ms, ks))
    decreases ms, 0, |ks|
  {
    if ks != [] {
      var v := Value(ms, ks[0]);
      QuotePaired(ks[0]);
      CanonicalPaired(v);
      PairedList(Quote(ks[0]), COLON, Canonicalize(v));
      if |ks| > 1 {
        EntriesPaired(ms, ks[1..]);
        PairedList(Entry(ms, ks[0]), COMMA, Entries(ms, ks[1..]));
      } else {
        assert Entries(ms, ks) == Entry(ms, ks[0]);
      }
    }
  }

  // ---- UTF-8 (section 3 of RFC 3629)

  predicate StartsWithPair(t: Units) {
    |t| > 1 && IsHigh(t[0]) && IsLow(t[1])
  }

  /** The code point at the front of the text; a lone surrogate counts as U+FFFD. */
  function FirstPoint(t: Units): (c: nat)
    requires t != []
    ensures c < 0x110000
  {
    if StartsWithPair(t) then 0x10000 + (t[0] as int - 0xd800) * 1024 + (t[1] as int - 0xdc00)
    else if IsHigh(t[0]) || IsLow(t[0]) then 0xfffd
    else t[0]
  }

  function PointBytes(c: nat): (r: seq<Byte>)
    requires c < 0x110000
    ensures r != []
  {
    if c < 0x80 then [c]
    else if c < 0x800 then [0xc0 + c / 64, 0x80 + c % 64]
    else if c < 0x10000 then [0xe0 + c / 4096, 0x80 + c / 64 % 64, 0x80 + c % 64]
    else [0xf0 + c / 262144, 0x80 + c / 4096 % 64, 0x80 + c / 64 % 64, 0x80 + c % 64]
  }

  function Utf8(t: Units): seq<Byte> {
    if t == [] then []
    else PointBytes(FirstPoint(t)) + Utf8(t[if StartsWithPair(t) then 2 else 1..])
  }

  /** The first byte tells how many bytes a code point takes, and they give it back. */
  function ReadPoint(bs: seq<int>): int
    requires bs != []
  {
    if bs[0] < 0xc0 || |bs| < 2 then bs[0]
    else if bs[0] < 0xe0 || |bs| < 3 then (bs[0] - 0xc0) * 64 + (bs[1] - 0x80)
    else if bs[0] < 0xf0 || |bs| < 4 then (bs[0] - 0xe0) * 4096 + (bs[1] - 0x80) * 64 + (bs[2] - 0x80)
    else (bs[0] - 0xf0) * 262144 + (bs[1] - 0x80) * 4096 + (bs[2] - 0x80) * 64 + (bs[3] - 0x80)
  }

  lemma {:induction false} ReadPointBytes(c: nat, rest: seq<Byte>)
    requires c < 0x110000
    ensures ReadPoint(PointBytes(c) + rest) == c
  {
    assert c == c / 64 * 64 + c % 64;
    assert c / 4096 == c / 64 / 64;
    assert c / 64 == c / 4096 * 64 + c / 64 % 64;
    assert c / 262144 == c / 4096 / 64;
    assert c / 4096 == c / 262144 * 64 + c / 4096 % 64;
  }

  lemma {:induction false} PointBytesPrefixFree(c: nat, d: nat, r: seq<Byte>, q: seq<Byte>)
    requires c < 0x110000 && d < 0x110000
    requires PointBytes(c) + r == PointBytes(d) + q
    ensures c == d && r == q
  {
    ReadPointBytes(c, r);
    ReadPointBytes(d, q);
    assert r == (PointBytes(c) + r)[|PointBytes(c)|..];
    assert q == (PointBytes(d) + q)[|PointBytes(d)|..];
  }

  lemma {:induction false} PairedTail(t: Units)
    requires Paired(t) && t != []
    ensures Paired(t[if StartsWithPair(t) then 2 else 1..])
    ensures StartsWithPair(t) <==> FirstPoint(t) >= 0x10000
    ensures !StartsWithPair(t) ==> FirstPoint(t) == t[0]
  {
    assert PairedAt(t, 0);
    var m := if StartsWithPair(t) then 2 else 1;
    forall i | 0 <= i < |t[m..]| ensures PairedAt(t[m..], i) {
      assert PairedAt(t, i + m);
    }
  }

  /** UTF-8 loses nothing on text whose surrogates are paired. */
  lemma {:induction false} Utf8Injective(a: Units, b: Units)
    requires Paired(a) && Paired(b)
    requires Utf8(a) == Utf8(b)
    ensures a == b
    decreases |a|
  {
    if a != [] && b != [] {
      var m, n := if StartsWithPair(a) then 2 else 1, if StartsWithPair(b) then 2 else 1;
      PointBytesPrefixFree(FirstPoint(a), FirstPoint(b), Utf8(a[m..]), Utf8(b[n..]));
      PairedTail(a);
      PairedTail(b);
      assert m == n && a[..m] == b[..n];
      Utf8Injective(a[m..], b[n..]);
      assert a == a[..m] + a[m..] && b == b[..n] + b[n..];
    }
  }

  /** Two licence values are signed over the same bytes exactly when they are the same value. */
  lemma {:induction false} SignedBytesDecide(v: Json, w: Json)
    requires Valid(v) && Valid(w)
    ensures Utf8(Canonicalize(v)) == Utf8(Canonicalize(w)) <==> SameValue(v, w)
  {
    CanonicalDecides(v, w);
    if Utf8(Canonicalize(v)) == Utf8(Canonicalize(w)) {
      CanonicalPaired(v);
      CanonicalPaired(w);
      Utf8Injective(Canonicalize(v), Canonicalize(w));
    }
  }

  /** Without the escapes the printer writes, UTF-8 would confuse distinct texts. */
  lemma {:induction false} Utf8ConfusesLoneSurrogates()
    ensures Utf8([0xd800]) == Utf8([0xdfff])
  {
    assert Utf8([0xd800]) == PointBytes(0xfffd) + Utf8([]) == Utf8([0xdfff]);
  }

  /** The encodings that section 7 of RFC 3629 gives as examples, and that of U+FFFD. */
  lemma {:induction false} EncodedExamples()
    ensures PointBytes(0x41) == [0x41] && PointBytes(0x391) == [0xce, 0x91] && PointBytes(0x2262) == [0xe2, 0x89, 0xa2]
    ensures PointBytes(0x233b4) == [0xf0, 0xa3, 0x8e, 0xb4] && PointBytes(0xfffd) == [0xef, 0xbf, 0xbd]
  {
  }

  /** Where the encodings of one, two, three and four bytes begin and end. */
  lemma {:induction false} EncodedLimits()
    ensures PointBytes(0x7f) == [0x7f] && PointBytes(0x80) == [0xc2, 0x80]
    ensures PointBytes(0x7ff) == [0xdf, 0xbf] && PointBytes(0x800) == [0xe0, 0xa0, 0x80]
    ensures PointBytes(0xffff) == [0xef, 0xbf, 0xbf] && PointBytes(0x10000) == [0xf0, 0x90, 0x80, 0x80]
  {
  }

  /** A pair of surrogates stands for one code point, as in section 3.9 of the Unicode Standard. */
  lemma {:induction false} PairExample()
    ensures FirstPoint([0xd84c, 0xdfb4]) == 0x233b4 && FirstPoint([0xd84c]) == 0xfffd == FirstPoint([0xdfb4])
  {
  }
}
