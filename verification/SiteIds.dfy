/**
 Site ids of the browser lane (browser-lane-app/Sources/BrowserLaneApp:
 BrowserLaneModels.swift, browserLaneSlug; SidebarViewController.swift, menuDuplicate).
 The platform's alphabet is a parameter.
 */
module SiteIds {
  import opened Decimals
  import opened Text

  /** What the platform makes of letters: lower case, and which characters are letters or numbers. */
  datatype Alphabet = Alphabet(lower: string -> string, letterOrNumber: char -> bool)

  /** Lower case is final: text of characters that lower-casing yields, and dashes, stays as it is. */
  ghost predicate Settles(lower: string -> string) {
    forall s, t :: (forall c :: c in t ==> c == '-' || c in lower(s)) ==> lower(t) == t
  }

  predicate IsKept(a: Alphabet, c: char) {
    a.letterOrNumber(c) || c == '.' || c == '_' || c == ':' || c == '-'
  }

  predicate IsDash(c: char) { c == '-' }

  function Mapped(a: Alphabet, s: string): (r: string)
    ensures |r| == |s|
    ensures forall i :: 0 <= i < |r| ==> r[i] == (if IsKept(a, s[i]) then s[i] else '-')
  {
    seq(|s|, i requires 0 <= i < |s| => if IsKept(a, s[i]) then s[i] else '-')
  }

  predicate HasPairAt(s: string, i: nat) {
    i + 1 < |s| && s[i] == '-' && s[i + 1] == '-'
  }

  predicate ContainsPair(s: string) {
    exists i :: 0 <= i < |s| && HasPairAt(s, i)
  }

  /** Every "--", scanning from the left without overlap, becomes "-". */
  function ReplacePairs(s: string): string {
    if s == "" then ""
    else if HasPairAt(s, 0) then "-" + ReplacePairs(s[2..])
    else [s[0]] + ReplacePairs(s[1..])
  }

  // ---- one pass instead of repeated replacement

  /** Puts c in front of s, unless that would double a dash. */
  function Onto(c: char, s: string): string {
    if c == '-' && s != "" && s[0] == '-' then s else [c] + s
  }

  /** Every run of dashes becomes one. */
  function Collapse(s: string): string {
    if s == "" then "" else Onto(s[0], Collapse(s[1..]))
  }

  function SlugOf(a: Alphabet, raw: string): string {
    Strip(IsDash, Collapse(Mapped(a, a.lower(raw))))
  }

  lemma {:induction false} CollapseFirst(s: string)
    ensures s != "" ==> Collapse(s) != "" && Collapse(s)[0] == s[0]
    ensures s == "" ==> Collapse(s) == ""
  {
    if s != "" {
      CollapseFirst(s[1..]);
    }
  }

  lemma {:induction false} CollapseReplaced(s: string)
    ensures Collapse(ReplacePairs(s)) == Collapse(s)
    decreases |s|
  {
    if s != "" {
      if HasPairAt(s, 0) {
        CollapseReplaced(s[2..]);
        var t := ReplacePairs(s[2..]);
        assert ("-" + t)[1..] == t;
        assert s[1..][1..] == s[2..];
        assert Collapse(s) == Onto('-', Onto('-', Collapse(s[2..])));
      } else {
        CollapseReplaced(s[1..]);
        assert ([s[0]] + ReplacePairs(s[1..]))[1..] == ReplacePairs(s[1..]);
      }
    }
  }

  lemma {:induction false} ReplacedShorter(s: string)
    ensures |ReplacePairs(s)| <= |s|
    ensures ContainsPair(s) ==> |ReplacePairs(s)| < |s|
    decreases |s|
  {
    if s != "" {
      if HasPairAt(s, 0) {
        ReplacedShorter(s[2..]);
      } else {
        ReplacedShorter(s[1..]);
        if ContainsPair(s) {
          var i :| 0 <= i < |s| && HasPairAt(s, i);
          assert HasPairAt(s[1..], i - 1);
        }
      }
    }
  }

  lemma {:induction false} CollapseNoPair(s: string)
    ensures !ContainsPair(Collapse(s))
    ensures !ContainsPair(s) ==> Collapse(s) == s
    ensures forall i :: 0 <= i < |Collapse(s)| ==> Collapse(s)[i] in s
  {
    if s != "" {
      CollapseNoPair(s[1..]);
      CollapseFirst(s[1..]);
      var t := Collapse(s[1..]);
      if !(s[0] == '-' && t != "" && t[0] == '-') {
        var r := [s[0]] + t;
        forall i | 0 <= i < |r| ensures !HasPairAt(r, i) {
          if i > 0 {
            assert !HasPairAt(t, i - 1);
          }
        }
      }
      if !ContainsPair(s) {
        forall i | 0 <= i < |s[1..]| ensures !HasPairAt(s[1..], i) {
          assert !HasPairAt(s, i + 1);
        }
        assert !HasPairAt(s, 0);
        assert [s[0]] + s[1..] == s;
      }
    }
  }

  method BrowserLaneSlug(a: Alphabet, raw: string) returns (slug: string)
    ensures slug == SlugOf(a, raw)
  {
    var lowered := a.lower(raw);
    var out := "";
    for i := 0 to |lowered|
      invariant out == Mapped(a, lowered)[..i]
    {
      if IsKept(a, lowered[i]) {
        out := out + [lowered[i]];
      } else {
        out := out + ['-'];
      }
    }
    assert out == Mapped(a, lowered);
    while ContainsPair(out)
      invariant Collapse(out) == Collapse(Mapped(a, lowered))
      decreases |out|
    {
      ReplacedShorter(out);
      CollapseReplaced(out);
      out := ReplacePairs(out);
    }
    CollapseNoPair(out);
    slug := Strip(IsDash, out);
  }

  /** A valid id: lower-case, no two dashes in a row, no dash at either end. */
  predicate IsSlug(a: Alphabet, s: string) {
    && (forall i :: 0 <= i < |s| ==> IsKept(a, s[i]))
    && a.lower(s) == s
    && !ContainsPair(s)
    && (s != "" ==> s[0] != '-' && s[|s| - 1] != '-')
  }

  lemma {:induction false} MappedChars(a: Alphabet, s: string)
    ensures forall c :: c in Mapped(a, s) ==> IsKept(a, c) && (c == '-' || c in s)
  {
  }

  lemma {:induction false} StrippedPart(s: string)
    ensures var n, t := Lead(IsDash, s), Strip(IsDash, s);
            n + |t| <= |s| && t == s[n..][..|t|] && (t != "" ==> t[0] != '-' && t[|t| - 1] != '-')
  {
    var t := LStrip(IsDash, s);
    assert Strip(IsDash, s) <= t;
  }

  lemma {:induction false} SlugIsValid(a: Alphabet, raw: string)
    requires Settles(a.lower)
    ensures IsSlug(a, SlugOf(a, raw))
  {
    var lowered := a.lower(raw);
    var m := Mapped(a, lowered);
    var slug := SlugOf(a, raw);
    SlugParts(a, raw);
    MappedChars(a, lowered);
    assert forall c :: c in slug ==> c == '-' || c in lowered;
  }

  /** What a slug keeps of the mapped text, whatever the alphabet. */
  lemma {:induction false} SlugParts(a: Alphabet, raw: string)
    ensures var m, slug := Mapped(a, a.lower(raw)), SlugOf(a, raw);
            && (forall c :: c in slug ==> c in m)
            && !ContainsPair(slug)
            && (slug != "" ==> slug[0] != '-' && slug[|slug| - 1] != '-')
  {
    var m := Mapped(a, a.lower(raw));
    var c := Collapse(m);
    var slug := SlugOf(a, raw);
    CollapseNoPair(m);
    StrippedPart(c);
    NoPairInPart(c, Lead(IsDash, c), |slug|);
    forall i | 0 <= i < |slug| ensures slug[i] in m {
      assert slug[i] == c[Lead(IsDash, c) + i];
    }
  }

  lemma {:induction false} NoPairInPart(s: string, from: nat, n: nat)
    requires from + n <= |s| && !ContainsPair(s)
    ensures !ContainsPair(s[from..][..n])
  {
    var t := s[from..][..n];
    forall i | 0 <= i < |t| ensures !HasPairAt(t, i) {
      assert !HasPairAt(s, from + i);
    }
  }

  /** A valid id is its own slug. */
  lemma {:induction false} SlugOfSlug(a: Alphabet, s: string)
    requires IsSlug(a, s)
    ensures SlugOf(a, s) == s
  {
    assert Mapped(a, s) == s;
    CollapseNoPair(s);
    if s != "" {
      LeadIs(IsDash, s, 0);
      RStripNothing(IsDash, s);
    }
  }

  lemma {:induction false} SlugIdempotent(a: Alphabet, raw: string)
    requires Settles(a.lower)
    ensures SlugOf(a, SlugOf(a, raw)) == SlugOf(a, raw)
  {
    SlugIsValid(a, raw);
    SlugOfSlug(a, SlugOf(a, raw));
  }

  /** ASCII lower case is final in this sense. */
  lemma {:induction false} AsciiSettles()
    ensures Settles(Lower)
  {
    forall s, t | forall c :: c in t ==> c == '-' || c in Lower(s) ensures Lower(t) == t {
      forall i | 0 <= i < |t| ensures LowerChar(t[i]) == t[i] {
        assert t[i] in t;
      }
    }
  }

  // ---- a fresh id for a copy

  /** The candidates in the order they are tried: base, base-2, base-3, ... */
  function Candidate(base: string, k: nat): string {
    if k == 0 then base else base + "-" + Decimal(k + 1)
  }

  lemma {:induction false} AppendInjective(a: string, b: string, c: string)
    requires a + b == a + c
    ensures b == c
  {
    assert b == (a + b)[|a|..] && c == (a + c)[|a|..];
  }

  lemma {:induction false} CandidatesDistinct(base: string, i: nat, j: nat)
    requires i < j
    ensures Candidate(base, i) != Candidate(base, j)
  {
    if i == 0 {
      assert |Candidate(base, j)| > |base|;
    } else if Candidate(base, i) == Candidate(base, j) {
      AppendInjective(base + "-", Decimal(i + 1), Decimal(j + 1));
      ReadDecimalDecimal(i + 1);
      ReadDecimalDecimal(j + 1);
    }
  }

  /** The first k candidates, as a set: there are k of them. */
  lemma {:induction false} FirstCandidates(base: string, k: nat) returns (tried: set<string>)
    ensures |tried| == k
    ensures forall s :: s in tried <==> exists i :: 0 <= i < k && s == Candidate(base, i)
  {
    if k == 0 {
      tried := {};
    } else {
      var fewer := FirstCandidates(base, k - 1);
      forall i | 0 <= i < k - 1 ensures Candidate(base, i) != Candidate(base, k - 1) {
        CandidatesDistinct(base, i, k - 1);
      }
      tried := fewer + {Candidate(base, k - 1)};
    }
  }

  lemma {:induction false} SubsetCardinality(a: set<string>, b: set<string>)
    requires a <= b
    ensures |a| <= |b|
  {
    if a != {} {
      var x :| x in a;
      SubsetCardinality(a - {x}, b - {x});
    }
  }

  /** No more candidates can be taken than there are ids. */
  lemma {:induction false} TakenAtMost(base: string, k: nat, existing: set<string>)
    requires forall i :: 0 <= i < k ==> Candidate(base, i) in existing
    ensures k <= |existing|
  {
    var tried := FirstCandidates(base, k);
    SubsetCardinality(tried, existing);
  }

  /** The loop ends, after at most one step for each existing id, with the first candidate that is free. */
  method FreshId(a: Alphabet, siteId: string, existing: set<string>) returns (candidate: string, steps: nat)
    ensures candidate !in existing
    ensures candidate == Candidate(SlugOf(a, siteId + "-copy"), steps)
    ensures forall i :: 0 <= i < steps ==> Candidate(SlugOf(a, siteId + "-copy"), i) in existing
    ensures steps <= |existing|
  {
    var baseId := BrowserLaneSlug(a, siteId + "-copy");
    candidate := baseId;
    var n := 2;
    while candidate in existing
      invariant n >= 2 && candidate == Candidate(baseId, n - 2)
      invariant forall i :: 0 <= i < n - 2 ==> Candidate(baseId, i) in existing
      invariant n - 2 <= |existing|
      decreases |existing| - (n - 2)
    {
      TakenAtMost(baseId, n - 1, existing);
      candidate := baseId + "-" + Decimal(n);
      n := n + 1;
    }
    steps := n - 2;
  }

  // ---- what a slug keeps

  lemma {:induction false} KeptCharacters(a: Alphabet, c: char)
    ensures IsKept(a, c) <==> a.letterOrNumber(c) || c in "._:-"
  {
  }

  /** The text without its dashes. */
  function Undashed(s: string): string {
    if s == "" then "" else (if s[0] == '-' then "" else [s[0]]) + Undashed(s[1..])
  }

  /** The characters that are kept, other than dashes. */
  function KeptOf(a: Alphabet, s: string): string {
    if s == "" then ""
    else (if (a.letterOrNumber(s[0]) || s[0] in "._:") && s[0] != '-' then [s[0]] else "") + KeptOf(a, s[1..])
  }

  lemma {:induction false} MappedKeeps(a: Alphabet, s: string)
    ensures Undashed(Mapped(a, s)) == KeptOf(a, s)
  {
    if s != "" {
      assert Mapped(a, s)[1..] == Mapped(a, s[1..]);
      MappedKeeps(a, s[1..]);
    }
  }

  lemma {:induction false} CollapseKeeps(s: string)
    ensures Undashed(Collapse(s)) == Undashed(s)
  {
    if s != "" {
      CollapseKeeps(s[1..]);
      var t := Collapse(s[1..]);
      assert ([s[0]] + t)[1..] == t;
    }
  }

  lemma {:induction false} UndashedConcat(s: string, t: string)
    ensures Undashed(s + t) == Undashed(s) + Undashed(t)
  {
    if s == "" {
      assert s + t == t;
    } else {
      assert (s + t)[1..] == s[1..] + t;
      UndashedConcat(s[1..], t);
    }
  }

  lemma {:induction false} OnlyDashes(s: string)
    requires forall i :: 0 <= i < |s| ==> s[i] == '-'
    ensures Undashed(s) == ""
  {
    if s != "" {
      OnlyDashes(s[1..]);
    }
  }

  lemma {:induction false} StripKeeps(s: string)
    ensures Undashed(Strip(IsDash, s)) == Undashed(s)
  {
    var t := LStrip(IsDash, s);
    var u := RStrip(IsDash, t);
    OnlyDashes(s[..Lead(IsDash, s)]);
    OnlyDashes(t[|u|..]);
    assert s == s[..Lead(IsDash, s)] + t && t == u + t[|u|..];
    UndashedConcat(s[..Lead(IsDash, s)], t);
    UndashedConcat(u, t[|u|..]);
  }

  /** A slug has the kept characters of the lower-cased name, all of them and in order. */
  lemma {:induction false} SlugKeepsCharacters(a: Alphabet, raw: string)
    ensures Undashed(SlugOf(a, raw)) == KeptOf(a, a.lower(raw))
  {
    var m := Mapped(a, a.lower(raw));
    MappedKeeps(a, a.lower(raw));
    CollapseKeeps(m);
    StripKeeps(Collapse(m));
  }

  lemma {:induction false} CandidateNames(base: string)
    ensures Candidate(base, 0) == base && Candidate(base, 1) == base + "-2" && Candidate(base, 9) == base + "-10"
  {
    assert Decimal(2) == "2";
    assert DigitsOf(10) == [1, 0];
    assert Decimal(10) == "10";
  }
}
