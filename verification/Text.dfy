/** Options, results and the small string vocabulary that several components share. */
module Wrappers {
  datatype Option<+T> = None | Some(value: T) {
    predicate IsFailure() { None? }
    function PropagateFailure<U>(): Option<U>
      requires None?
    {
      None
    }
    function Extract(): T
      requires Some?
    {
      value
    }
  }

  datatype Result<+T, +E> = Ok(value: T) | Err(error: E)
}

/** Decimal notation of natural numbers, as a list of digits. */
module Decimals {

  predicate AreDigits(ds: seq<nat>) {
    forall i :: 0 <= i < |ds| ==> ds[i] < 10
  }

  function DigitsOf(n: nat): (ds: seq<nat>)
    ensures ds != [] && AreDigits(ds)
  {
    if n < 10 then [n] else DigitsOf(n / 10) + [n % 10]
  }

  function ValueOf(ds: seq<nat>): nat {
    if ds == [] then 0 else 10 * ValueOf(ds[..|ds| - 1]) + ds[|ds| - 1]
  }

  lemma {:induction false} ValueOfDigitsOf(n: nat)
    ensures ValueOf(DigitsOf(n)) == n
  {
    if n >= 10 {
      var ds := DigitsOf(n);
      assert ds[..|ds| - 1] == DigitsOf(n / 10);
      ValueOfDigitsOf(n / 10);
    }
  }
}

/** Splitting, joining and decimal text over character strings. */
module Text {
  import opened Wrappers
  import opened Decimals

  /** The pieces of s between occurrences of c; empty pieces are kept, so there is always one. */
  function SplitOn(s: string, c: char): (ps: seq<string>)
    ensures ps != []
    ensures forall i :: 0 <= i < |ps| ==> c !in ps[i]
  {
    if s == "" then [""]
    else
      var ps := SplitOn(s[1..], c);
      if s[0] == c then [""] + ps else [[s[0]] + ps[0]] + ps[1..]
  }

  /** The pieces in order with one c between neighbours. */
  function Join(ps: seq<string>, c: char): string {
    if ps == [] then ""
    else if |ps| == 1 then ps[0]
    else ps[0] + [c] + Join(ps[1..], c)
  }

  function NonEmpty(ps: seq<string>): (r: seq<string>)
    ensures forall i :: 0 <= i < |r| ==> r[i] != "" && r[i] in ps
  {
    if ps == [] then []
    else (if ps[0] == "" then [] else [ps[0]]) + NonEmpty(ps[1..])
  }

  /** Splitting that omits empty pieces. */
  function Pieces(s: string, c: char): (ps: seq<string>)
    ensures forall i :: 0 <= i < |ps| ==> IsPiece(ps[i], c)
  {
    NonEmpty(SplitOn(s, c))
  }

  predicate IsPiece(p: string, c: char) {
    p != "" && c !in p
  }

  predicate ArePieces(ps: seq<string>, c: char) {
    forall i :: 0 <= i < |ps| ==> IsPiece(ps[i], c)
  }

  lemma {:induction false} SplitOnPlain(a: string, c: char)
    requires c !in a
    ensures SplitOn(a, c) == [a]
  {
    if a != "" {
      SplitOnPlain(a[1..], c);
      assert [a[0]] + a[1..] == a;
    }
  }

  /** A separator splits independently of what stands on its two sides. */
  lemma {:induction false} SplitOnConcat(a: string, b: string, c: char)
    ensures SplitOn(a + [c] + b, c) == SplitOn(a, c) + SplitOn(b, c)
  {
    if a == "" {
      assert a + [c] + b == [c] + b;
    } else {
      var tail := a[1..] + [c] + b;
      assert a + [c] + b == [a[0]] + tail;
      SplitOnConcat(a[1..], b, c);
      var ps, qs := SplitOn(a[1..], c), SplitOn(b, c);
      assert SplitOn(tail, c) == ps + qs;
      if a[0] == c {
        assert [""] + (ps + qs) == ([""] + ps) + qs;
      } else {
        assert [[a[0]] + ps[0]] + (ps + qs)[1..] == ([[a[0]] + ps[0]] + ps[1..]) + qs;
      }
    }
  }

  lemma {:induction false} SplitOnJoin(ps: seq<string>, c: char)
    requires ps != []
    requires forall i :: 0 <= i < |ps| ==> c !in ps[i]
    ensures SplitOn(Join(ps, c), c) == ps
  {
    SplitOnPlain(ps[0], c);
    if |ps| > 1 {
      SplitOnJoin(ps[1..], c);
      SplitOnConcat(ps[0], Join(ps[1..], c), c);
      assert [ps[0]] + ps[1..] == ps;
    }
  }

  lemma {:induction false} JoinSplitOn(s: string, c: char)
    ensures Join(SplitOn(s, c), c) == s
  {
    if s != "" {
      JoinSplitOn(s[1..], c);
      var ps := SplitOn(s[1..], c);
      if s[0] == c {
        assert ([""] + ps)[1..] == ps;
      } else {
        assert ([[s[0]] + ps[0]] + ps[1..])[1..] == ps[1..];
      }
    }
  }

  lemma {:induction false} JoinAppend(ps: seq<string>, qs: seq<string>, c: char)
    requires ps != [] && qs != []
    ensures Join(ps + qs, c) == Join(ps, c) + [c] + Join(qs, c)
  {
    assert (ps + qs)[1..] == ps[1..] + qs;
    if |ps| > 1 {
      JoinAppend(ps[1..], qs, c);
    } else {
      assert ps[1..] + qs == qs;
    }
  }

  lemma {:induction false} NonEmptyConcat(ps: seq<string>, qs: seq<string>)
    ensures NonEmpty(ps + qs) == NonEmpty(ps) + NonEmpty(qs)
  {
    if ps == [] {
      assert ps + qs == qs;
    } else {
      assert (ps + qs)[1..] == ps[1..] + qs;
      NonEmptyConcat(ps[1..], qs);
    }
  }

  lemma {:induction false} NonEmptyIdentity(ps: seq<string>)
    requires forall i :: 0 <= i < |ps| ==> ps[i] != ""
    ensures NonEmpty(ps) == ps
  {
    if ps != [] {
      NonEmptyIdentity(ps[1..]);
    }
  }

  lemma {:induction false} PiecesConcat(a: string, b: string, c: char)
    ensures Pieces(a + [c] + b, c) == Pieces(a, c) + Pieces(b, c)
  {
    SplitOnConcat(a, b, c);
    NonEmptyConcat(SplitOn(a, c), SplitOn(b, c));
  }

  lemma {:induction false} PiecesOfPiece(p: string, c: char)
    requires IsPiece(p, c)
    ensures Pieces(p, c) == [p]
  {
    SplitOnPlain(p, c);
    NonEmptyIdentity([p]);
  }

  lemma {:induction false} PiecesJoin(ps: seq<string>, c: char)
    requires ArePieces(ps, c)
    ensures Pieces(Join(ps, c), c) == ps
  {
    if ps == [] {
      assert NonEmpty([""]) == NonEmpty([""][1..]);
    } else {
      SplitOnJoin(ps, c);
      NonEmptyIdentity(ps);
    }
  }

  // ---- decimal text

  predicate IsDigitChar(c: char) {
    '0' <= c <= '9'
  }

  function DigitChar(d: nat): (c: char)
    requires d < 10
    ensures IsDigitChar(c)
  {
    '0' + d as char
  }

  function AsText(ds: seq<nat>): (s: string)
    requires AreDigits(ds)
    ensures |s| == |ds|
    ensures forall i :: 0 <= i < |s| ==> s[i] == DigitChar(ds[i])
  {
    seq(|ds|, i requires 0 <= i < |ds| => DigitChar(ds[i]))
  }

  function Decimal(n: nat): (s: string)
    ensures s != ""
    ensures forall i :: 0 <= i < |s| ==> IsDigitChar(s[i])
  {
    AsText(DigitsOf(n))
  }

  /** The number a non-empty all-digit string denotes. */
  function ReadDecimal(s: string): (r: Option<nat>)
    ensures r.Some? <==> s != "" && forall i :: 0 <= i < |s| ==> IsDigitChar(s[i])
  {
    if s != "" && forall i :: 0 <= i < |s| ==> IsDigitChar(s[i]) then
      Some(ValueOf(seq(|s|, i requires 0 <= i < |s| => (s[i] as int - '0' as int) as nat)))
    else None
  }

  lemma {:induction false} ReadDecimalDecimal(n: nat)
    ensures ReadDecimal(Decimal(n)) == Some(n)
  {
    var s := Decimal(n);
    var ds := DigitsOf(n);
    assert seq(|s|, i requires 0 <= i < |s| => (s[i] as int - '0' as int) as nat) == ds;
    ValueOfDigitsOf(n);
  }

  /** The platform's integers are 64 bits wide. */
  const INT_LIMIT: int := 0x8000_0000_0000_0000

  /** What the platform's integer reader accepts: an optional sign and digits, within range. */
  function ReadInt(s: string): Option<int> {
    var signed := s != "" && (s[0] == '+' || s[0] == '-');
    match ReadDecimal(if signed then s[1..] else s)
    case None => None
    case Some(n) =>
      var v := if signed && s[0] == '-' then -(n as int) else n;
      if -INT_LIMIT <= v < INT_LIMIT then Some(v) else None
  }

  lemma {:induction false} ReadIntDecimal(n: nat)
    requires n < INT_LIMIT
    ensures ReadInt(Decimal(n)) == Some(n)
  {
    assert IsDigitChar(Decimal(n)[0]);
    ReadDecimalDecimal(n);
  }

  /** A sign is read, and a number out of range or with anything else in it is none. */
  lemma {:induction false} ReadIntSigned(n: nat)
    ensures ReadInt("-" + Decimal(n)) == if n <= 0x8000_0000_0000_0000 then Some(-(n as int)) else None
    ensures ReadInt("+" + Decimal(n)) == if n < 0x8000_0000_0000_0000 then Some(n) else None
    ensures ReadInt(Decimal(n)) == if n < 0x8000_0000_0000_0000 then Some(n) else None
  {
    assert IsDigitChar(Decimal(n)[0]);
    assert ("-" + Decimal(n))[1..] == Decimal(n) == ("+" + Decimal(n))[1..];
    ReadDecimalDecimal(n);
  }

  lemma {:induction false} ReadIntOther(s: string, i: nat)
    requires i < |s| && !IsDigitChar(s[i]) && !(i == 0 && (s[0] == '+' || s[0] == '-'))
    ensures ReadInt(s).None?
  {
    if s[0] == '+' || s[0] == '-' {
      assert s[1..][i - 1] == s[i];
    }
  }

  predicate IsAscii(s: string) {
    forall i :: 0 <= i < |s| ==> s[i] as int < 0x80
  }

  /** ASCII lower-casing. */
  function LowerChar(c: char): char {
    if 'A' <= c <= 'Z' then c - 'A' + 'a' else c
  }

  function Lower(s: string): (r: string)
    ensures |r| == |s|
    ensures forall i :: 0 <= i < |s| ==> r[i] == LowerChar(s[i])
  {
    seq(|s|, i requires 0 <= i < |s| => LowerChar(s[i]))
  }

  // ---- stripping the characters that satisfy p from the ends

  /** The first position from i on that does not satisfy p. */
  function SkipRun(p: char -> bool, s: string, i: nat): (n: nat)
    requires i <= |s|
    ensures i <= n <= |s|
    ensures forall j :: i <= j < n ==> p(s[j])
    ensures n < |s| ==> !p(s[n])
    decreases |s| - i
  {
    if i < |s| && p(s[i]) then SkipRun(p, s, i + 1) else i
  }

  function Lead(p: char -> bool, s: string): (n: nat)
    ensures n <= |s|
    ensures forall j :: 0 <= j < n ==> p(s[j])
    ensures n < |s| ==> !p(s[n])
  {
    SkipRun(p, s, 0)
  }

  function LStrip(p: char -> bool, s: string): string {
    s[Lead(p, s)..]
  }

  /** How much of the first n characters is left when a run that satisfies p is dropped at their end. */
  function TrimEnd(p: char -> bool, s: string, n: nat): (m: nat)
    requires n <= |s|
    ensures m <= n
    ensures m > 0 ==> !p(s[m - 1])
    ensures forall j :: m <= j < n ==> p(s[j])
  {
    if n > 0 && p(s[n - 1]) then TrimEnd(p, s, n - 1) else n
  }

  function RStrip(p: char -> bool, s: string): (t: string)
    ensures t <= s
    ensures t != "" ==> !p(t[|t| - 1])
    ensures forall j :: |t| <= j < |s| ==> p(s[j])
  {
    s[..TrimEnd(p, s, |s|)]
  }

  function Strip(p: char -> bool, s: string): string {
    RStrip(p, LStrip(p, s))
  }

  lemma {:induction false} LeadIs(p: char -> bool, s: string, n: nat)
    requires n <= |s|
    requires forall j :: 0 <= j < n ==> p(s[j])
    requires n < |s| ==> !p(s[n])
    ensures Lead(p, s) == n
  {
  }

  lemma {:induction false} LeadOfPrefix(p: char -> bool, s: string, k: nat)
    requires Lead(p, s) < k <= |s|
    ensures Lead(p, s[..k]) == Lead(p, s)
  {
    LeadIs(p, s[..k], Lead(p, s));
  }

  lemma {:induction false} StripUpTo(p: char -> bool, s: string, k: nat)
    requires 0 < k <= |s| && !p(s[k - 1])
    ensures Lead(p, s) < k
    ensures Strip(p, s[..k]) == s[Lead(p, s)..k] != ""
  {
    LeadOfPrefix(p, s, k);
    PrefixSuffix(s, Lead(p, s), k);
    RStripNothing(p, s[Lead(p, s)..k]);
  }

  lemma {:induction false} PrefixSuffix<T>(s: seq<T>, n: nat, k: nat)
    requires n < k <= |s|
    ensures s[..k][n..] == s[n..k]
    ensures s[n..k][k - n - 1] == s[k - 1]
  {
  }

  lemma {:induction false} RStripNothing(p: char -> bool, t: string)
    requires t != "" && !p(t[|t| - 1])
    ensures RStrip(p, t) == t
  {
  }

  lemma {:induction false} LStripConcat(p: char -> bool, s: string, c: string)
    ensures LStrip(p, s + c) == if LStrip(p, s) == "" then LStrip(p, c) else LStrip(p, s) + c
  {
    var n := Lead(p, s);
    if n == |s| {
      LeadIs(p, s + c, |s| + Lead(p, c));
    } else {
      LeadIs(p, s + c, n);
      assert (s + c)[n..] == s[n..] + c;
    }
  }

  lemma {:induction false} LStripTwice(p: char -> bool, s: string, c: string)
    ensures LStrip(p, LStrip(p, s) + c) == LStrip(p, s + c)
  {
    LStripConcat(p, s, c);
    if LStrip(p, s) == "" {
      assert "" + c == c;
    } else {
      LeadIs(p, LStrip(p, s) + c, 0);
    }
  }

  /** Only the letters A to Z have a lower case here. */
  lemma {:induction false} LowerIs()
    ensures Lower("ABCDEFGHIJKLMNOPQRSTUVWXYZ") == "abcdefghijklmnopqrstuvwxyz"
    ensures forall c :: !('A' <= c <= 'Z') ==> LowerChar(c) == c
  {
  }
}
