/**
 Sentence chunking of streamed tokens (voice-sidecar/streaming.py).
 The character classes of the regular expressions that depend on Unicode, and the
 length before a first clause may be spoken, are parameters.
 */
module SentenceStream {
  import opened Wrappers
  import opened Text

  datatype Rules = Rules(digit: char -> bool, space: char -> bool, firstMinChars: int) {
    ghost predicate Valid() {
      forall c :: !(digit(c) && space(c)) && (IsMark(c) ==> !digit(c) && !space(c))
    }
  }

  predicate IsEndMark(c: char) { c == '.' || c == '!' || c == '?' }
  predicate IsCloser(c: char) { c == '"' || c == '\'' || c == ')' || c == ']' }
  predicate IsClauseMark(c: char) { c == ',' || c == ';' || c == ':' }
  predicate IsMark(c: char) { IsEndMark(c) || IsCloser(c) || IsClauseMark(c) }

  // ---- the two regular expressions

  /** One round of the boundary group matches at i: '!', '?', or a '.' with no digit on either side. */
  predicate EndsAt(r: Rules, s: string, i: nat)
    requires i < |s|
  {
    || s[i] == '!' || s[i] == '?'
    || (s[i] == '.' && (i == 0 || !r.digit(s[i - 1])) && (i + 1 == |s| || !r.digit(s[i + 1])))
  }

  /** The leftmost position from i on where a boundary begins. */
  function FirstEnd(r: Rules, s: string, i: nat): (p: Option<nat>)
    requires i <= |s|
    ensures p.Some? ==> i <= p.value < |s| && EndsAt(r, s, p.value)
    ensures forall j :: i <= j < (if p.Some? then p.value else |s|) ==> !EndsAt(r, s, j)
    decreases |s| - i
  {
    if i == |s| then None else if EndsAt(r, s, i) then Some(i) else FirstEnd(r, s, i + 1)
  }

  /** Greedy repetition of the boundary group. */
  function RunEnd(r: Rules, s: string, i: nat): (e: nat)
    requires i <= |s|
    ensures i <= e <= |s|
    ensures forall j :: i <= j < e ==> EndsAt(r, s, j)
    ensures e < |s| ==> !EndsAt(r, s, e)
    decreases |s| - i
  {
    if i < |s| && EndsAt(r, s, i) then RunEnd(r, s, i + 1) else i
  }

  /** Greedy repetition of closing quotes and brackets. */
  function ClosersEnd(s: string, i: nat): (e: nat)
    requires i <= |s|
    ensures i <= e <= |s|
    ensures forall j :: i <= j < e ==> IsCloser(s[j])
    ensures e < |s| ==> !IsCloser(s[e])
    decreases |s| - i
  {
    if i < |s| && IsCloser(s[i]) then ClosersEnd(s, i + 1) else i
  }

  /** The end of the leftmost boundary match. */
  function SentenceEnd(r: Rules, s: string): (k: Option<nat>)
    ensures k.Some? ==> 0 < k.value <= |s|
  {
    var p :- FirstEnd(r, s, 0);
    Some(ClosersEnd(s, RunEnd(r, s, p)))
  }

  /** The end of the leftmost clause mark from i on. */
  function ClauseEnd(s: string, i: nat): (k: Option<nat>)
    requires i <= |s|
    ensures k.Some? ==> i < k.value <= |s| && IsClauseMark(s[k.value - 1])
    ensures forall j :: i <= j < (if k.Some? then k.value - 1 else |s|) ==> !IsClauseMark(s[j])
    decreases |s| - i
  {
    if i == |s| then None else if IsClauseMark(s[i]) then Some(i + 1) else ClauseEnd(s, i + 1)
  }

  /** A negative search position counts from the start, as it does in Python's re. */
  function ClauseFrom(r: Rules): nat {
    if r.firstMinChars < 0 then 0 else r.firstMinChars
  }

  function NextCut(r: Rules, buf: string, eager: bool): (k: Option<nat>)
    ensures k.Some? ==> 0 < k.value <= |buf|
  {
    var sentEnd := SentenceEnd(r, buf);
    if eager && |buf| >= r.firstMinChars then
      var clause := ClauseEnd(buf, ClauseFrom(r));
      if clause.Some? && (sentEnd.None? || clause.value < sentEnd.value) then clause else sentEnd
    else sentEnd
  }

  // ---- the generator, as a function of its input

  datatype Drained = Drained(chunks: seq<string>, rest: string, eager: bool)

  /** The inner loop: cut until no cut is left. eager stands for eager_first and emitted == 0. */
  function Drain(r: Rules, buf: string, eager: bool): Drained
    decreases |buf|
  {
    match NextCut(r, buf, eager)
    case None => Drained([], buf, eager)
    case Some(k) =>
      var chunk := Strip(r.space, buf[..k]);
      var d := Drain(r, LStrip(r.space, buf[k..]), eager && chunk == "");
      Drained((if chunk == "" then [] else [chunk]) + d.chunks, d.rest, d.eager)
  }

  function Flush(r: Rules, buf: string): seq<string> {
    var tail := Strip(r.space, buf);
    if tail == "" then [] else [tail]
  }

  function Stream(r: Rules, tokens: seq<string>, buf: string, eager: bool): seq<string> {
    if tokens == [] then Flush(r, buf)
    else
      var d := Drain(r, buf + tokens[0], eager);
      d.chunks + Stream(r, tokens[1..], d.rest, d.eager)
  }

  /** What iter_sentences yields. */
  function Chunks(r: Rules, tokens: seq<string>, eagerFirst: bool): seq<string> {
    Stream(r, tokens, "", eagerFirst)
  }

  lemma {:induction false} Assoc<T>(a: seq<T>, b: seq<T>, c: seq<T>)
    ensures a + b + c == a + (b + c)
    ensures a + [] == a == [] + a
  {
  }

  lemma {:induction false} StreamStep(r: Rules, tokens: seq<string>, i: nat, buf: string, eager: bool)
    requires i < |tokens|
    ensures var d := Drain(r, buf + tokens[i], eager);
            Stream(r, tokens[i..], buf, eager) == d.chunks + Stream(r, tokens[i + 1..], d.rest, d.eager)
  {
    assert tokens[i..][1..] == tokens[i + 1..];
  }

  lemma {:induction false} DrainStep(r: Rules, buf: string, eager: bool, k: nat)
    requires NextCut(r, buf, eager) == Some(k)
    ensures var chunk := Strip(r.space, buf[..k]);
            var d := Drain(r, LStrip(r.space, buf[k..]), eager && chunk == "");
            Drain(r, buf, eager) == Drained((if chunk == "" then [] else [chunk]) + d.chunks, d.rest, d.eager)
  {
  }

  method IterSentences(r: Rules, tokens: seq<string>, eagerFirst: bool) returns (chunks: seq<string>)
    ensures chunks == Chunks(r, tokens, eagerFirst)
  {
    chunks := [];
    var buf := "";
    var emitted: nat := 0;
    for i := 0 to |tokens|
      invariant chunks + Stream(r, tokens[i..], buf, eagerFirst && emitted == 0) == Chunks(r, tokens, eagerFirst)
    {
      StreamStep(r, tokens, i, buf, eagerFirst && emitted == 0);
      buf := buf + tokens[i];
      ghost var before := chunks;
      ghost var all := Drain(r, buf, eagerFirst && emitted == 0);
      var cut := NextCut(r, buf, eagerFirst && emitted == 0);
      while cut.Some?
        invariant cut == NextCut(r, buf, eagerFirst && emitted == 0)
        invariant var d := Drain(r, buf, eagerFirst && emitted == 0);
                  chunks + d.chunks == before + all.chunks && d.rest == all.rest && d.eager == all.eager
        decreases |buf|
      {
        DrainStep(r, buf, eagerFirst && emitted == 0, cut.value);
        var chunk := Strip(r.space, buf[..cut.value]);
        ghost var after := Drain(r, LStrip(r.space, buf[cut.value..]), eagerFirst && emitted == 0 && chunk == "");
        Assoc(chunks, [chunk], after.chunks);
        Assoc(after.chunks, [], []);
        buf := LStrip(r.space, buf[cut.value..]);
        if chunk != "" {
          chunks := chunks + [chunk];
          emitted := emitted + 1;
        }
        cut := NextCut(r, buf, eagerFirst && emitted == 0);
      }
      Assoc(before, all.chunks, Stream(r, tokens[i + 1..], buf, eagerFirst && emitted == 0));
      Assoc(chunks, [], []);
    }
    var tail := Strip(r.space, buf);
    if tail != "" {
      chunks := chunks + [tail];
    }
  }

  // ---- where streaming and reading the whole reply can part

  function Concat(tokens: seq<string>): string {
    if tokens == [] then "" else tokens[0] + Concat(tokens[1..])
  }

  /** Where the closers that end the first k characters begin. */
  function ClosersBack(s: string, k: nat): (n: nat)
    requires k <= |s|
    ensures n <= k
    ensures forall j :: n <= j < k ==> IsCloser(s[j])
    ensures n > 0 ==> !IsCloser(s[n - 1])
  {
    if k > 0 && IsCloser(s[k - 1]) then ClosersBack(s, k - 1) else k
  }

  function ClosersStart(s: string): (n: nat)
    ensures n <= |s|
    ensures forall j :: n <= j < |s| ==> IsCloser(s[j])
    ensures n > 0 ==> !IsCloser(s[n - 1])
  {
    ClosersBack(s, |s|)
  }

  /** A boundary match ends where s ends. */
  predicate EndsWithBoundary(r: Rules, s: string) {
    var n := ClosersStart(s);
    n > 0 && EndsAt(r, s, n - 1)
  }

  /**
   The break between `before` and `after` splits a boundary match, or hides the digit that
   would have kept a '.' from being one.
   */
  predicate Harmful(r: Rules, before: string, after: string) {
    && EndsWithBoundary(r, before)
    && after != ""
    && var last, first := before[|before| - 1], after[0];
       || IsCloser(first)
       || (last == '.' && r.digit(first))
       || (IsEndMark(last) && (first == '!' || first == '?' || (first == '.' && (|after| == 1 || !r.digit(after[1])))))
  }

  /** No break between tokens, the first len characters being already in the buffer, is harmful. */
  predicate SafeAfter(r: Rules, buf: string, tokens: seq<string>)
    decreases |tokens|
  {
    tokens == [] ||
    (!Harmful(r, buf + tokens[0], Concat(tokens[1..])) && SafeAfter(r, buf + tokens[0], tokens[1..]))
  }

  /** The chunks of a text that is all there at once. */
  function Whole(r: Rules, s: string, eager: bool): seq<string>
    decreases |s|
  {
    match NextCut(r, s, eager)
    case None => Flush(r, s)
    case Some(k) =>
      var chunk := Strip(r.space, s[..k]);
      (if chunk == "" then [] else [chunk]) + Whole(r, LStrip(r.space, s[k..]), eager && chunk == "")
  }

  lemma {:induction false} WholeIsDrain(r: Rules, s: string, eager: bool)
    ensures var d := Drain(r, s, eager); Whole(r, s, eager) == d.chunks + Flush(r, d.rest)
    decreases |s|
  {
    if NextCut(r, s, eager).Some? {
      var k := NextCut(r, s, eager).value;
      DrainStep(r, s, eager, k);
      var rest, eager' := LStrip(r.space, s[k..]), eager && Strip(r.space, s[..k]) == "";
      WholeIsDrain(r, rest, eager');
      var first := if Strip(r.space, s[..k]) == "" then [] else [Strip(r.space, s[..k])];
      var d := Drain(r, rest, eager');
      Assoc(first, d.chunks, Flush(r, d.rest));
    } else {
      Assoc(Flush(r, s), [], []);
    }
  }

  // ---- what more text to the right can change

  lemma {:induction false} MoreTextOnlyRemovesEnds(r: Rules, s: string, c: string, i: nat)
    requires i < |s|
    ensures EndsAt(r, s + c, i) ==> EndsAt(r, s, i)
    ensures i + 1 < |s| ==> (EndsAt(r, s + c, i) <==> EndsAt(r, s, i))
    ensures EndsAt(r, s, i) && !EndsAt(r, s + c, i) ==> i == |s| - 1 && s[i] == '.' && c != "" && r.digit(c[0])
  {
  }

  /** A boundary match that stops at the end of the text makes the text end with a boundary. */
  lemma {:induction false} MatchToTheEnd(r: Rules, s: string)
    requires SentenceEnd(r, s) == Some(|s|)
    ensures EndsWithBoundary(r, s)
    ensures ClosersStart(s) == RunEnd(r, s, FirstEnd(r, s, 0).value)
  {
    var e := RunEnd(r, s, FirstEnd(r, s, 0).value);
    var n := ClosersStart(s);
    assert EndsAt(r, s, e - 1) && !IsCloser(s[e - 1]);
    assert forall j :: e <= j < |s| ==> IsCloser(s[j]);
  }

  /** A sentence cut that the break leaves alone. */
  lemma {:induction false} SentenceEndStable(r: Rules, s: string, c: string)
    requires r.Valid()
    requires SentenceEnd(r, s).Some?
    requires SentenceEnd(r, s).value < |s| || !Harmful(r, s, c)
    ensures SentenceEnd(r, s + c) == SentenceEnd(r, s)
  {
    var t := s + c;
    var p := FirstEnd(r, s, 0).value;
    var e := RunEnd(r, s, p);
    var k := ClosersEnd(s, e);
    if k == |s| {
      MatchToTheEnd(r, s);
    }
    forall i | 0 <= i < |s| ensures EndsAt(r, t, i) ==> EndsAt(r, s, i) ensures i < k ==> EndsAt(r, s, i) ==> EndsAt(r, t, i) {
      MoreTextOnlyRemovesEnds(r, s, c, i);
    }
    assert FirstEnd(r, t, 0) == Some(p);
    assert e < |t| ==> !EndsAt(r, t, e);
    assert RunEnd(r, t, p) == e;
    assert k < |t| ==> !IsCloser(t[k]);
    assert ClosersEnd(t, e) == k;
  }

  /** More text never moves the first place where a boundary could begin to the left. */
  lemma {:induction false} FirstEndLater(r: Rules, s: string, c: string)
    ensures FirstEnd(r, s + c, 0).Some? ==>
              FirstEnd(r, s + c, 0).value >= if FirstEnd(r, s, 0).Some? then FirstEnd(r, s, 0).value else |s|
  {
    if FirstEnd(r, s + c, 0).Some? && FirstEnd(r, s + c, 0).value < |s| {
      MoreTextOnlyRemovesEnds(r, s, c, FirstEnd(r, s + c, 0).value);
    }
  }

  lemma {:induction false} ClauseEndStable(s: string, c: string, i: nat)
    requires i <= |s|
    ensures ClauseEnd(s, i).Some? ==> ClauseEnd(s + c, i) == ClauseEnd(s, i)
    ensures ClauseEnd(s, i).None? && ClauseEnd(s + c, i).Some? ==> ClauseEnd(s + c, i).value > |s|
  {
    var k, k' := ClauseEnd(s, i), ClauseEnd(s + c, i);
    if k.Some? {
      assert (s + c)[k.value - 1] == s[k.value - 1];
    }
    if k'.Some? && k'.value <= |s| {
      assert (s + c)[k'.value - 1] == s[k'.value - 1];
    }
  }

  /** A clause mark before a sentence's end comes before the boundary match begins. */
  lemma {:induction false} ClauseBeforeBoundary(r: Rules, s: string, k: nat)
    requires SentenceEnd(r, s).Some? && 0 < k < SentenceEnd(r, s).value && IsClauseMark(s[k - 1])
    ensures k <= FirstEnd(r, s, 0).value
  {
    var p := FirstEnd(r, s, 0).value;
    var e := RunEnd(r, s, p);
    assert forall j :: p <= j < e ==> EndsAt(r, s, j);
    assert forall j :: e <= j < SentenceEnd(r, s).value ==> IsCloser(s[j]);
    assert p <= k - 1 ==> EndsAt(r, s, k - 1) || IsCloser(s[k - 1]);
  }

  /** Unless the break is harmful, more text leaves the next cut where it is. */
  lemma {:induction false} CutStable(r: Rules, s: string, c: string, eager: bool)
    requires r.Valid()
    requires NextCut(r, s, eager).Some?
    requires NextCut(r, s, eager).value < |s| || !Harmful(r, s, c)
    ensures NextCut(r, s + c, eager) == NextCut(r, s, eager)
  {
    var k := NextCut(r, s, eager).value;
    var m := ClauseFrom(r);
    if eager && |s| >= r.firstMinChars {
      ClauseEndStable(s, c, m);
    }
    FirstEndLater(r, s, c);
    if SentenceEnd(r, s) == Some(k) {
      SentenceEndStable(r, s, c);
    } else if SentenceEnd(r, s).Some? {
      ClauseBeforeBoundary(r, s, k);
    }
  }

  /** At a harmful break the cut at the end of the text read so far is not made. */
  lemma {:induction false} HarmfulMovesCut(r: Rules, s: string, c: string, eager: bool)
    requires r.Valid()
    requires Harmful(r, s, c)
    requires NextCut(r, s, eager) == Some(|s|)
    ensures NextCut(r, s + c, eager) != Some(|s|)
  {
    var t := s + c;
    var n := ClosersStart(s);
    assert !IsClauseMark(s[|s| - 1]) by {
      if n == |s| {
        assert EndsAt(r, s, n - 1);
      } else {
        assert IsCloser(s[|s| - 1]);
      }
    }
    assert SentenceEnd(r, s) == Some(|s|);
    MatchToTheEnd(r, s);
    SentenceMoves(r, s, c);
    if eager && |t| >= r.firstMinChars {
      var clause := ClauseEnd(t, ClauseFrom(r));
      assert clause.Some? ==> IsClauseMark(t[clause.value - 1]);
      assert t[|s| - 1] == s[|s| - 1];
    }
  }

  lemma {:induction false} SentenceMoves(r: Rules, s: string, c: string)
    requires r.Valid()
    requires Harmful(r, s, c)
    requires SentenceEnd(r, s) == Some(|s|)
    ensures SentenceEnd(r, s + c) != Some(|s|)
  {
    MatchToTheEnd(r, s);
    FirstEndLater(r, s, c);
    if s[|s| - 1] == '.' && r.digit(c[0]) {
      SentenceMovesOffDigit(r, s, c);
    } else {
      SentenceGrows(r, s, c);
    }
  }

  /** The digit after the break keeps the last '.' from being a boundary. */
  lemma {:induction false} SentenceMovesOffDigit(r: Rules, s: string, c: string)
    requires r.Valid()
    requires SentenceEnd(r, s) == Some(|s|)
    requires c != "" && s[|s| - 1] == '.' && r.digit(c[0])
    ensures SentenceEnd(r, s + c) != Some(|s|)
  {
    var t := s + c;
    var p := FirstEnd(r, s, 0).value;
    FirstEndLater(r, s, c);
    assert !EndsAt(r, t, |s| - 1) && !IsCloser(t[|s| - 1]);
    if p < |s| - 1 {
      forall i | 0 <= i < |s| - 1 ensures EndsAt(r, t, i) <==> EndsAt(r, s, i) {
        MoreTextOnlyRemovesEnds(r, s, c, i);
      }
      assert FirstEnd(r, t, 0) == Some(p);
      assert RunEnd(r, t, p) == |s| - 1;
    }
  }

  /** What follows the break belongs to the match. */
  lemma {:induction false} SentenceGrows(r: Rules, s: string, c: string)
    requires r.Valid()
    requires Harmful(r, s, c)
    requires SentenceEnd(r, s) == Some(|s|)
    requires !(s[|s| - 1] == '.' && r.digit(c[0]))
    ensures SentenceEnd(r, s + c) != Some(|s|)
  {
    var t := s + c;
    var p := FirstEnd(r, s, 0).value;
    var e := RunEnd(r, s, p);
    MatchToTheEnd(r, s);
    FirstEndLater(r, s, c);
    forall i | 0 <= i < |s| ensures EndsAt(r, s, i) <==> EndsAt(r, t, i) {
      MoreTextOnlyRemovesEnds(r, s, c, i);
    }
    assert FirstEnd(r, t, 0) == Some(p);
    if IsCloser(c[0]) {
      assert !EndsAt(r, t, e);
      assert RunEnd(r, t, p) == e;
      assert forall j :: e <= j <= |s| ==> IsCloser(t[j]);
    } else {
      assert e == |s| && EndsAt(r, t, e);
      assert RunEnd(r, t, p) > e;
    }
  }

  // ---- white space and cuts

  lemma {:induction false} CutIsMark(r: Rules, s: string, eager: bool)
    requires NextCut(r, s, eager).Some?
    ensures IsMark(s[NextCut(r, s, eager).value - 1])
  {
    var k := NextCut(r, s, eager).value;
    if SentenceEnd(r, s) == Some(k) {
      var e := RunEnd(r, s, FirstEnd(r, s, 0).value);
      assert EndsAt(r, s, e - 1);
      assert k == e || IsCloser(s[k - 1]);
    }
  }

  /** Every cut is just after a mark, so the chunk it makes is never blank. */
  lemma {:induction false} CutAfterMark(r: Rules, s: string, eager: bool)
    requires r.Valid()
    requires NextCut(r, s, eager).Some?
    ensures var k := NextCut(r, s, eager).value;
            && IsMark(s[k - 1])
            && Lead(r.space, s) < k
            && !r.space(s[k - 1])
            && Strip(r.space, s[..k]) == s[Lead(r.space, s)..k] != ""
  {
    CutIsMark(r, s, eager);
    StripUpTo(r.space, s, NextCut(r, s, eager).value);
  }

  /** x is text already cut off: what is left, rest, can be looked at without it. */
  ghost predicate CleanCut(r: Rules, x: string, rest: string) {
    x == "" ||
    (!r.digit(x[|x| - 1]) && (EndsWithBoundary(r, x) && rest != "" ==> !IsCloser(rest[0])))
  }

  lemma {:induction false} ClosersStartIs(s: string, n: nat)
    requires n <= |s|
    requires forall j :: n <= j < |s| ==> IsCloser(s[j])
    requires n > 0 ==> !IsCloser(s[n - 1])
    ensures ClosersStart(s) == n
  {
  }

  /** How the boundary at the end of x + y is seen in y alone. */
  lemma {:induction false} BoundaryShift(r: Rules, x: string, y: string)
    requires r.Valid()
    requires x == "" || !r.digit(x[|x| - 1])
    requires EndsWithBoundary(r, x) && y != "" ==> !IsCloser(y[0])
    ensures y != "" ==> (EndsWithBoundary(r, x + y) <==> EndsWithBoundary(r, y))
  {
    if y != "" {
      var t := x + y;
      var n := ClosersStart(y);
      if n > 0 {
        assert forall j :: |x| + n <= j < |t| ==> t[j] == y[j - |x|];
        ClosersStartIs(t, |x| + n);
        assert EndsAt(r, t, |x| + n - 1) <==> EndsAt(r, y, n - 1);
      } else {
        assert IsCloser(y[0]);
        var m := ClosersStart(x);
        assert forall j :: m <= j < |t| ==> t[j] == if j < |x| then x[j] else y[j - |x|];
        ClosersStartIs(t, m);
        if m > 0 {
          MoreTextOnlyRemovesEnds(r, x, y, m - 1);
        }
      }
    }
  }

  /** Whether a break is harmful does not depend on what was cut off before. */
  lemma {:induction false} HarmfulShift(r: Rules, x: string, y: string, c: string)
    requires r.Valid()
    requires CleanCut(r, x, y)
    requires y == "" ==> !Harmful(r, x, c)
    ensures Harmful(r, x + y, c) <==> Harmful(r, y, c)
  {
    BoundaryShift(r, x, y);
    if y == "" {
      assert x + y == x;
    }
  }

  lemma {:induction false} CleanCutCompose(r: Rules, x: string, y: string, z: string)
    requires r.Valid()
    requires CleanCut(r, x, y + z) && CleanCut(r, y, z)
    ensures CleanCut(r, x + y, z)
  {
    if x == "" {
      assert x + y == y;
    } else if y == "" {
      assert x + y == x && y + z == z;
    } else {
      BoundaryShift(r, x, y);
    }
  }

  /** rest is what is left of s after a clean cut. */
  ghost predicate CleanRest(r: Rules, s: string, rest: string) {
    && |rest| <= |s|
    && rest == s[|s| - |rest|..]
    && CleanCut(r, s[..|s| - |rest|], rest)
  }

  lemma {:induction false} CleanRestIntro(r: Rules, s: string, n: nat)
    requires n <= |s| && CleanCut(r, s[..n], s[n..])
    ensures CleanRest(r, s, s[n..])
  {
  }

  lemma {:induction false} CleanRestSplit(r: Rules, s: string, rest: string) returns (x: string)
    requires CleanRest(r, s, rest)
    ensures s == x + rest && CleanCut(r, x, rest)
  {
    x := s[..|s| - |rest|];
  }

  lemma {:induction false} LStripOfSuffix(r: Rules, s: string, k: nat)
    requires k <= |s|
    ensures var w := Lead(r.space, s[k..]);
            && LStrip(r.space, s[k..]) == s[k + w..]
            && (w > 0 ==> r.space(s[k + w - 1]))
  {
    var w := Lead(r.space, s[k..]);
    if w > 0 {
      assert r.space(s[k..][w - 1]);
    }
  }

  /** One cut is clean. */
  lemma {:induction false} CutIsClean(r: Rules, s: string, eager: bool)
    requires r.Valid()
    requires NextCut(r, s, eager).Some?
    ensures var k := NextCut(r, s, eager).value;
            var rest := LStrip(r.space, s[k..]);
            |rest| < |s| && CleanRest(r, s, rest)
  {
    var k := NextCut(r, s, eager).value;
    var w := Lead(r.space, s[k..]);
    LStripOfSuffix(r, s, k);
    CutAfterMark(r, s, eager);
    CutIsCleanAt(r, s, eager, k, k + w);
    CleanRestIntro(r, s, k + w);
  }

  lemma {:induction false} CutIsCleanAt(r: Rules, s: string, eager: bool, k: nat, n: nat)
    requires r.Valid()
    requires NextCut(r, s, eager) == Some(k) && k <= n <= |s|
    requires IsMark(s[k - 1]) && (n > k ==> r.space(s[n - 1]))
    ensures CleanCut(r, s[..n], s[n..])
  {
    var x := s[..n];
    assert x[|x| - 1] == s[n - 1];
    if n > k || SentenceEnd(r, s) != Some(k) {
      SpaceEndsNoBoundary(r, x);
    } else {
      assert n < |s| ==> s[n..][0] == s[n] && !IsCloser(s[n]);
    }
  }

  lemma {:induction false} SpaceEndsNoBoundary(r: Rules, x: string)
    requires x != "" && !IsCloser(x[|x| - 1]) && !IsEndMark(x[|x| - 1])
    ensures !EndsWithBoundary(r, x)
  {
  }

  lemma {:induction false} SuffixOfSuffix<T>(s: seq<T>, i: nat, j: nat)
    requires i <= |s| && j <= |s| - i
    ensures s[i..][j..] == s[i + j..]
    ensures s[..i] + s[i..][..j] == s[..i + j]
    ensures s[i..] == s[i..][..j] + s[i..][j..]
  {
  }

  lemma {:induction false} CleanRestCompose(r: Rules, s: string, s': string, rest: string)
    requires r.Valid()
    requires CleanRest(r, s, s') && CleanRest(r, s', rest)
    ensures CleanRest(r, s, rest)
  {
    SuffixOfSuffix(s, |s| - |s'|, |s'| - |rest|);
    CleanCutCompose(r, s[..|s| - |s'|], s'[..|s'| - |rest|], rest);
  }

  /** So is what the inner loop leaves. */
  lemma {:induction false} DrainIsClean(r: Rules, s: string, eager: bool)
    requires r.Valid()
    ensures CleanRest(r, s, Drain(r, s, eager).rest)
    decreases |s|
  {
    if NextCut(r, s, eager).Some? {
      var k := NextCut(r, s, eager).value;
      var s' := LStrip(r.space, s[k..]);
      CutIsClean(r, s, eager);
      CutAfterMark(r, s, eager);
      DrainStep(r, s, eager, k);
      DrainIsClean(r, s', false);
      CleanRestCompose(r, s, s', Drain(r, s', false).rest);
    } else {
      assert s[|s| - |s|..] == s && s[..|s| - |s|] == "";
    }
  }

  // ---- one whole text against the text read so far

  /** What one cut does to the inner loop and to a whole text. */
  lemma {:induction false} DrainCut(r: Rules, s: string, eager: bool, k: nat)
    requires r.Valid()
    requires NextCut(r, s, eager) == Some(k)
    ensures Drain(r, s, eager).chunks == [Strip(r.space, s[..k])] + Drain(r, LStrip(r.space, s[k..]), false).chunks
    ensures Drain(r, s, eager).rest == Drain(r, LStrip(r.space, s[k..]), false).rest
    ensures Drain(r, s, eager).eager == Drain(r, LStrip(r.space, s[k..]), false).eager
  {
    CutAfterMark(r, s, eager);
    DrainStep(r, s, eager, k);
  }

  lemma {:induction false} WholeCut(r: Rules, s: string, eager: bool, k: nat)
    requires r.Valid()
    requires NextCut(r, s, eager) == Some(k)
    ensures Whole(r, s, eager) == [Strip(r.space, s[..k])] + Whole(r, LStrip(r.space, s[k..]), false)
  {
    CutAfterMark(r, s, eager);
  }

  lemma {:induction false} SliceOfSuffix<T>(s: seq<T>, i: nat, j: nat)
    requires i <= |s| && j <= |s| - i
    ensures s[i..][0..j] == s[i..i + j]
    ensures s[i..][j..] == s[i + j..]
  {
  }

  lemma {:induction false} SliceOfConcat<T>(s: seq<T>, c: seq<T>, k: nat)
    requires k <= |s|
    ensures (s + c)[..k] == s[..k]
    ensures (s + c)[k..] == s[k..] + c
  {
  }

  /** Leading white space does not move a sentence's end. */
  lemma {:induction false} SentenceEndAfterSpace(r: Rules, s: string)
    requires r.Valid()
    ensures var k, k' := SentenceEnd(r, s), SentenceEnd(r, LStrip(r.space, s));
            && (k.Some? <==> k'.Some?)
            && (k.Some? ==> k.value == Lead(r.space, s) + k'.value)
  {
    var n := Lead(r.space, s);
    var t := s[n..];
    forall i | 0 <= i < |t| ensures EndsAt(r, t, i) <==> EndsAt(r, s, n + i) {
      if i == 0 && n > 0 {
        assert r.space(s[n - 1]);
      }
    }
    forall i | 0 <= i < n ensures !EndsAt(r, s, i) {
      assert r.space(s[i]);
    }
    var p := FirstEnd(r, t, 0);
    assert forall i :: n <= i < |s| ==> EndsAt(r, s, i) == EndsAt(r, t, i - n);
    if p.Some? {
      assert FirstEnd(r, s, 0).value == n + p.value;
      RunEndShift(r, s, t, n, p.value);
    }
  }

  lemma {:induction false} RunEndShift(r: Rules, s: string, t: string, n: nat, p: nat)
    requires n + p <= |s| && t == s[n..]
    requires forall i :: 0 <= i < |t| ==> (EndsAt(r, t, i) <==> EndsAt(r, s, n + i))
    ensures ClosersEnd(s, RunEnd(r, s, n + p)) == n + ClosersEnd(t, RunEnd(r, t, p))
  {
    var e := RunEnd(r, t, p);
    assert forall i :: n + p <= i < n + e ==> EndsAt(r, s, i) == EndsAt(r, t, i - n);
    assert RunEnd(r, s, n + p) == n + e;
    var k := ClosersEnd(t, e);
    assert forall i :: n + e <= i < n + k ==> s[i] == t[i - n];
    assert ClosersEnd(s, n + e) == n + k;
  }

  lemma {:induction false} StripAfterSpace(r: Rules, s: string, k: nat)
    requires 0 < k <= |s| && !r.space(s[k - 1])
    ensures var n := Lead(r.space, s); n < k && Strip(r.space, s[n..][..k - n]) == Strip(r.space, s[..k]) && s[n..][k - n..] == s[k..]
  {
    var n := Lead(r.space, s);
    StripUpTo(r.space, s, k);
    LeadIs(r.space, s[n..], 0);
    assert s[n..][k - n - 1] == s[k - 1];
    StripUpTo(r.space, s[n..], k - n);
    SliceOfSuffix(s, n, k - n);
  }

  /** The first cut makes the same chunk with and without leading white space. */
  ghost predicate SameCut(r: Rules, s: string, t: string) {
    var j, k := NextCut(r, s, false), NextCut(r, t, false);
    && j.Some? && k.Some?
    && Strip(r.space, s[..j.value]) == Strip(r.space, t[..k.value])
    && s[j.value..] == t[k.value..]
  }

  lemma {:induction false} CutAfterSpace(r: Rules, s: string)
    requires r.Valid()
    requires NextCut(r, LStrip(r.space, s), false).Some?
    ensures SameCut(r, s, LStrip(r.space, s))
  {
    SentenceEndAfterSpace(r, s);
    var j := NextCut(r, s, false).value;
    CutAfterMark(r, s, false);
    StripAfterSpace(r, s, j);
  }

  lemma {:induction false} NoCutAfterSpace(r: Rules, s: string)
    requires r.Valid()
    requires NextCut(r, LStrip(r.space, s), false).None?
    ensures Whole(r, LStrip(r.space, s), false) == Whole(r, s, false)
  {
    SentenceEndAfterSpace(r, s);
    LeadIs(r.space, LStrip(r.space, s), 0);
    assert LStrip(r.space, LStrip(r.space, s)) == LStrip(r.space, s);
  }

  lemma {:induction false} SameCutSameWhole(r: Rules, s: string, t: string)
    requires r.Valid()
    requires SameCut(r, s, t)
    ensures Whole(r, t, false) == Whole(r, s, false)
  {
    WholeCut(r, t, false, NextCut(r, t, false).value);
    WholeCut(r, s, false, NextCut(r, s, false).value);
  }

  /** Once a chunk is out, leading white space changes nothing. */
  lemma {:induction false} WholeSkipsSpace(r: Rules, s: string)
    requires r.Valid()
    ensures Whole(r, LStrip(r.space, s), false) == Whole(r, s, false)
  {
    if NextCut(r, LStrip(r.space, s), false).None? {
      NoCutAfterSpace(r, s);
    } else {
      CutAfterSpace(r, s);
      SameCutSameWhole(r, s, LStrip(r.space, s));
    }
  }

  /** Across a harmless break the whole text is chunked like the text so far, then the rest with what follows. */
  lemma {:induction false} DrainStable(r: Rules, s: string, c: string, eager: bool)
    requires r.Valid()
    requires !Harmful(r, s, c)
    ensures var d := Drain(r, s, eager);
            Whole(r, s + c, eager) == d.chunks + Whole(r, d.rest + c, d.eager)
    decreases |s|
  {
    if NextCut(r, s, eager).Some? {
      var k := NextCut(r, s, eager).value;
      var s' := LStrip(r.space, s[k..]);
      CutStable(r, s, c, eager);
      CutIsClean(r, s, eager);
      DrainCut(r, s, eager, k);
      WholeCut(r, s + c, eager, k);
      SliceOfConcat(s, c, k);
      LStripConcat(r.space, s[k..], c);
      var d := Drain(r, s', false);
      if s' == "" {
        WholeSkipsSpace(r, c);
        assert d == Drained([], "", false);
        assert "" + c == c;
      } else {
        var x := CleanRestSplit(r, s, s');
        HarmfulShift(r, x, s', c);
        DrainStable(r, s', c, false);
      }
      Assoc([Strip(r.space, s[..k])], d.chunks, Whole(r, d.rest + c, d.eager));
    }
  }

  /** The two lists differ at a place both have. */
  ghost predicate Differ(a: seq<string>, b: seq<string>) {
    exists i :: 0 <= i < |a| && i < |b| && a[i] != b[i]
  }

  lemma {:induction false} DifferAfter(x: string, a: seq<string>, b: seq<string>)
    requires Differ(a, b)
    ensures Differ([x] + a, [x] + b)
  {
    var i :| 0 <= i < |a| && i < |b| && a[i] != b[i];
    assert ([x] + a)[i + 1] != ([x] + b)[i + 1];
  }

  /** Before a harmful break the inner loop cuts everything, and the last cut is the wrong one. */
  lemma {:induction false} HarmfulDiverges(r: Rules, s: string, c: string, eager: bool)
    requires r.Valid()
    requires Harmful(r, s, c)
    ensures Differ(Drain(r, s, eager).chunks, Whole(r, s + c, eager))
    decreases |s|
  {
    HarmfulCuts(r, s, c, eager);
    var k := NextCut(r, s, eager).value;
    DrainCut(r, s, eager, k);
    if k == |s| {
      HarmfulFirstChunk(r, s, c, eager);
    } else {
      HarmfulStep(r, s, c, eager, k);
      var s' := LStrip(r.space, s[k..]);
      HarmfulDiverges(r, s', c, false);
      DifferAfter(Strip(r.space, s[..k]), Drain(r, s', false).chunks, Whole(r, s' + c, false));
    }
  }

  lemma {:induction false} HarmfulCuts(r: Rules, s: string, c: string, eager: bool)
    requires r.Valid()
    requires Harmful(r, s, c)
    ensures NextCut(r, s, eager).Some?
  {
    assert FirstEnd(r, s, 0).Some?;
  }

  lemma {:induction false} HarmfulStep(r: Rules, s: string, c: string, eager: bool, k: nat)
    requires r.Valid()
    requires Harmful(r, s, c)
    requires NextCut(r, s, eager) == Some(k) && k < |s|
    ensures var s' := LStrip(r.space, s[k..]);
            && |s'| < |s|
            && Harmful(r, s', c)
            && Whole(r, s + c, eager) == [Strip(r.space, s[..k])] + Whole(r, s' + c, false)
  {
    var s' := LStrip(r.space, s[k..]);
    CutStable(r, s, c, eager);
    CutIsClean(r, s, eager);
    SliceOfConcat(s, c, k);
    LStripConcat(r.space, s[k..], c);
    assert s' != "" by {
      BoundaryEndsWithMark(r, s);
      assert s[k..][|s| - k - 1] == s[|s| - 1];
    }
    WholeCut(r, s + c, eager, k);
    var x := CleanRestSplit(r, s, s');
    HarmfulShift(r, x, s', c);
  }

  lemma {:induction false} BoundaryEndsWithMark(r: Rules, s: string)
    requires r.Valid() && EndsWithBoundary(r, s)
    ensures s != "" && IsMark(s[|s| - 1]) && !r.space(s[|s| - 1])
  {
  }

  lemma {:induction false} HarmfulFirstChunk(r: Rules, s: string, c: string, eager: bool)
    requires r.Valid()
    requires Harmful(r, s, c)
    requires NextCut(r, s, eager) == Some(|s|)
    ensures Whole(r, s + c, eager) != [] && Whole(r, s + c, eager)[0] != Strip(r.space, s[..|s|])
  {
    var t := s + c;
    HarmfulMovesCut(r, s, c, eager);
    CutAfterMark(r, s, eager);
    var n := Lead(r.space, s);
    LeadIs(r.space, t, n);
    match NextCut(r, t, eager)
    case Some(k) =>
      WholeCut(r, t, eager, k);
      CutAfterMark(r, t, eager);
    case None =>
      assert !r.space(t[|s|]);
      var u := LStrip(r.space, t);
      assert u[|s| - n] == t[|s|];
      assert |Strip(r.space, t)| > |s| - n;
  }

  // ---- main results

  lemma {:induction false} SafeAfterShift(r: Rules, x: string, y: string, tokens: seq<string>)
    requires r.Valid()
    requires CleanCut(r, x, y)
    requires y == "" ==> !Harmful(r, x, Concat(tokens))
    ensures SafeAfter(r, x + y, tokens) <==> SafeAfter(r, y, tokens)
    decreases |tokens|
  {
    if tokens != [] {
      var y', c := y + tokens[0], Concat(tokens[1..]);
      assert x + y + tokens[0] == x + y';
      assert y' == "" ==> Concat(tokens) == c;
      HarmfulShift(r, x, y', c);
      SafeAfterShift(r, x, y', tokens[1..]);
    }
  }

  lemma {:induction false} StreamAgrees(r: Rules, tokens: seq<string>, buf: string, eager: bool)
    requires r.Valid()
    requires NextCut(r, buf, eager).None?
    ensures Stream(r, tokens, buf, eager) == Whole(r, buf + Concat(tokens), eager) <==> SafeAfter(r, buf, tokens)
    decreases |tokens|
  {
    if tokens == [] {
      assert buf + "" == buf;
      Assoc(Flush(r, buf), [], []);
    } else {
      var s, c := buf + tokens[0], Concat(tokens[1..]);
      var d := Drain(r, s, eager);
      Assoc(buf, tokens[0], c);
      DrainLeavesNoCut(r, s, eager);
      DrainIsClean(r, s, eager);
      var later := Stream(r, tokens[1..], d.rest, d.eager);
      if Harmful(r, s, c) {
        HarmfulDiverges(r, s, c, eager);
        DifferForGood(d.chunks, later, Whole(r, s + c, eager));
      } else {
        DrainStable(r, s, c, eager);
        StreamAgrees(r, tokens[1..], d.rest, d.eager);
        SameTail(d.chunks, later, Whole(r, d.rest + c, d.eager));
        SafeAfterDrain(r, s, d.rest, tokens[1..]);
      }
    }
  }

  lemma {:induction false} SafeAfterDrain(r: Rules, s: string, rest: string, tokens: seq<string>)
    requires r.Valid()
    requires CleanRest(r, s, rest)
    requires !Harmful(r, s, Concat(tokens))
    ensures SafeAfter(r, s, tokens) <==> SafeAfter(r, rest, tokens)
  {
    var x := CleanRestSplit(r, s, rest);
    assert rest == "" ==> x == s;
    SafeAfterShift(r, x, rest, tokens);
  }

  lemma {:induction false} DifferForGood(a: seq<string>, later: seq<string>, b: seq<string>)
    requires Differ(a, b)
    ensures a + later != b
  {
    var i :| 0 <= i < |a| && i < |b| && a[i] != b[i];
    assert (a + later)[i] == a[i];
  }

  lemma {:induction false} SameTail<T>(a: seq<T>, b: seq<T>, c: seq<T>)
    ensures a + b == a + c <==> b == c
  {
    if a + b == a + c {
      assert b == (a + b)[|a|..] && c == (a + c)[|a|..];
    }
  }

  lemma {:induction false} DrainLeavesNoCut(r: Rules, s: string, eager: bool)
    ensures NextCut(r, Drain(r, s, eager).rest, Drain(r, s, eager).eager).None?
    decreases |s|
  {
    if NextCut(r, s, eager).Some? {
      var k := NextCut(r, s, eager).value;
      DrainStep(r, s, eager, k);
      DrainLeavesNoCut(r, LStrip(r.space, s[k..]), eager && Strip(r.space, s[..k]) == "");
    }
  }

  /**
   Streaming a reply in tokens yields the chunks of the whole reply exactly when no
   break between tokens is harmful, in eager and in plain mode.
   */
  lemma {:induction false} StreamingAgreesWithWhole(r: Rules, tokens: seq<string>, eagerFirst: bool)
    requires r.Valid()
    ensures Chunks(r, tokens, eagerFirst) == Chunks(r, [Concat(tokens)], eagerFirst)
       <==> SafeAfter(r, "", tokens)
  {
    var whole := Concat(tokens);
    assert "" + whole == whole;
    StreamAgrees(r, tokens, "", eagerFirst);
    assert [whole][1..] == [];
    WholeIsDrain(r, whole, eagerFirst);
    assert Stream(r, [whole], "", eagerFirst) == Whole(r, whole, eagerFirst);
  }

  /** Splitting a run of end marks over two tokens changes what is spoken. */
  lemma {:induction false} StreamingCanSplitARun(r: Rules, eagerFirst: bool)
    requires r.Valid()
    ensures Chunks(r, ["Hi!", "!"], eagerFirst) != Chunks(r, ["Hi!!"], eagerFirst)
  {
    var tokens := ["Hi!", "!"];
    assert tokens[1..] == ["!"] && tokens[1..][1..] == [];
    assert Concat(tokens[1..]) == "!" + Concat([]) == "!";
    assert Concat(tokens) == "Hi!" + "!" == "Hi!!";
    assert "" + tokens[0] == "Hi!";
    ClosersStartIs("Hi!", 3);
    assert EndsAt(r, "Hi!", 2);
    StreamingAgreesWithWhole(r, tokens, eagerFirst);
  }

  // ---- nothing is lost, added or reordered

  ghost predicate Trimmed(r: Rules, chunk: string) {
    chunk != "" && !r.space(chunk[0]) && !r.space(chunk[|chunk| - 1])
  }

  /** text is white space, the first chunk, white space, the second chunk, and so on to the end. */
  ghost predicate Weaves(r: Rules, text: string, chunks: seq<string>)
    decreases |chunks|
  {
    var t := LStrip(r.space, text);
    if chunks == [] then t == ""
    else Trimmed(r, chunks[0]) && chunks[0] <= t && Weaves(r, t[|chunks[0]|..], chunks[1..])
  }

  lemma {:induction false} WeavesSkipsSpace(r: Rules, text: string, chunks: seq<string>)
    ensures Weaves(r, LStrip(r.space, text), chunks) <==> Weaves(r, text, chunks)
  {
    LeadIs(r.space, LStrip(r.space, text), 0);
    assert LStrip(r.space, text)[0..] == LStrip(r.space, text);
  }

  lemma {:induction false} FlushWeaves(r: Rules, buf: string)
    ensures Weaves(r, buf, Flush(r, buf))
  {
    var t := LStrip(r.space, buf);
    var tail := RStrip(r.space, t);
    if tail == "" {
      assert t == "";
    } else {
      assert tail[0] == t[0];
      LeadIs(r.space, t[|tail|..], |t| - |tail|);
      assert Flush(r, buf)[1..] == [];
      assert LStrip(r.space, t[|tail|..]) == "";
    }
  }

  lemma {:induction false} CutWeaves(r: Rules, s: string, c: string, eager: bool, more: seq<string>)
    requires r.Valid()
    requires NextCut(r, s, eager).Some?
    requires var k := NextCut(r, s, eager).value; Weaves(r, LStrip(r.space, s[k..]) + c, more)
    ensures var k := NextCut(r, s, eager).value; Weaves(r, s + c, [Strip(r.space, s[..k])] + more)
  {
    var k := NextCut(r, s, eager).value;
    CutAfterMark(r, s, eager);
    LStripTwice(r.space, s[k..], c);
    WeavesSkipsSpace(r, s[k..] + c, more);
    WeavesSkipsSpace(r, LStrip(r.space, s[k..]) + c, more);
    WeavesChunk(r, s, c, k, more);
  }

  lemma {:induction false} WeavesChunk(r: Rules, s: string, c: string, k: nat, more: seq<string>)
    requires Lead(r.space, s) < k <= |s| && !r.space(s[k - 1])
    requires Weaves(r, s[k..] + c, more)
    ensures Weaves(r, s + c, [s[Lead(r.space, s)..k]] + more)
  {
    var n := Lead(r.space, s);
    var chunk := s[n..k];
    LeadIs(r.space, s + c, n);
    ChunkShape(s, c, n, k);
    assert ([chunk] + more)[1..] == more;
  }

  lemma {:induction false} ChunkShape<T>(s: seq<T>, c: seq<T>, n: nat, k: nat)
    requires n < k <= |s|
    ensures (s + c)[n..] == s[n..k] + (s[k..] + c)
    ensures (s + c)[n..][k - n..] == s[k..] + c
    ensures s[n..k][0] == s[n] && s[n..k][k - n - 1] == s[k - 1]
  {
  }

  lemma {:induction false} DrainWeaves(r: Rules, s: string, c: string, eager: bool, more: seq<string>)
    requires r.Valid()
    requires Weaves(r, Drain(r, s, eager).rest + c, more)
    ensures Weaves(r, s + c, Drain(r, s, eager).chunks + more)
    decreases |s|
  {
    if NextCut(r, s, eager).Some? {
      var k := NextCut(r, s, eager).value;
      var s' := LStrip(r.space, s[k..]);
      DrainCut(r, s, eager, k);
      DrainWeaves(r, s', c, false, more);
      CutWeaves(r, s, c, eager, Drain(r, s', false).chunks + more);
      Assoc([Strip(r.space, s[..k])], Drain(r, s', false).chunks, more);
    } else {
      Assoc(more, [], []);
    }
  }

  lemma {:induction false} StreamWeaves(r: Rules, tokens: seq<string>, buf: string, eager: bool)
    requires r.Valid()
    ensures Weaves(r, buf + Concat(tokens), Stream(r, tokens, buf, eager))
    decreases |tokens|
  {
    if tokens == [] {
      FlushWeaves(r, buf);
      assert buf + "" == buf;
    } else {
      var s, c := buf + tokens[0], Concat(tokens[1..]);
      var d := Drain(r, s, eager);
      StreamWeaves(r, tokens[1..], d.rest, d.eager);
      DrainWeaves(r, s, c, eager, Stream(r, tokens[1..], d.rest, d.eager));
      Assoc(buf, tokens[0], c);
    }
  }

  /** The chunks spoken are the reply's own text, in order, with only white space dropped. */
  lemma {:induction false} NothingLost(r: Rules, tokens: seq<string>, eagerFirst: bool)
    requires r.Valid()
    ensures Weaves(r, Concat(tokens), Chunks(r, tokens, eagerFirst))
  {
    StreamWeaves(r, tokens, "", eagerFirst);
    assert "" + Concat(tokens) == Concat(tokens);
  }

  // ---- where chunks end

  predicate EndsSentence(chunk: string) {
    chunk != "" && (IsEndMark(chunk[|chunk| - 1]) || IsCloser(chunk[|chunk| - 1]))
  }

  predicate EndsClause(chunk: string) {
    chunk != "" && IsClauseMark(chunk[|chunk| - 1])
  }

  /** Every chunk but the last ends a sentence, except that an eager first one may end a clause. */
  ghost predicate WellEnded(chunks: seq<string>, eager: bool) {
    forall i :: 0 <= i < |chunks| ==> EndsSentence(chunks[i]) || (i == 0 && eager && EndsClause(chunks[0]))
  }

  lemma {:induction false} CutEnds(r: Rules, s: string, eager: bool)
    requires r.Valid()
    requires NextCut(r, s, eager).Some?
    ensures var k := NextCut(r, s, eager).value;
            EndsSentence(Strip(r.space, s[..k])) ||
            (eager && EndsClause(Strip(r.space, s[..k])) && k > r.firstMinChars && FirstEndFrom(r, s, k))
  {
    var k := NextCut(r, s, eager).value;
    CutAfterMark(r, s, eager);
    var chunk := Strip(r.space, s[..k]);
    assert chunk[|chunk| - 1] == s[k - 1];
    var p := FirstEnd(r, s, 0);
    if p.Some? {
      var e := RunEnd(r, s, p.value);
      assert EndsAt(r, s, e - 1);
      if SentenceEnd(r, s) != Some(k) {
        ClauseBeforeBoundary(r, s, k);
      }
    }
  }

  /** No boundary begins before position k. */
  predicate FirstEndFrom(r: Rules, s: string, k: nat) {
    FirstEnd(r, s, 0).None? || FirstEnd(r, s, 0).value >= k
  }

  lemma {:induction false} DrainWellEnded(r: Rules, s: string, eager: bool)
    requires r.Valid()
    ensures WellEnded(Drain(r, s, eager).chunks, eager)
    ensures Drain(r, s, eager).eager == (eager && Drain(r, s, eager).chunks == [])
    decreases |s|
  {
    if NextCut(r, s, eager).Some? {
      var k := NextCut(r, s, eager).value;
      DrainCut(r, s, eager, k);
      CutEnds(r, s, eager);
      DrainWellEnded(r, LStrip(r.space, s[k..]), false);
    }
  }

  function ButLast(chunks: seq<string>): seq<string> {
    if chunks == [] then [] else chunks[..|chunks| - 1]
  }

  lemma {:induction false} WellEndedConcat(a: seq<string>, b: seq<string>, eager: bool, eager': bool)
    requires WellEnded(a, eager) && WellEnded(ButLast(b), eager')
    requires eager' ==> eager && a == []
    ensures WellEnded(ButLast(a + b), eager)
  {
    var t := ButLast(a + b);
    forall i | 0 <= i < |t| ensures EndsSentence(t[i]) || (i == 0 && eager && EndsClause(t[0])) {
      if i >= |a| {
        assert t[i] == ButLast(b)[i - |a|];
      }
    }
  }

  lemma {:induction false} StreamWellEnded(r: Rules, tokens: seq<string>, buf: string, eager: bool)
    requires r.Valid()
    ensures WellEnded(ButLast(Stream(r, tokens, buf, eager)), eager)
    decreases |tokens|
  {
    if tokens != [] {
      var d := Drain(r, buf + tokens[0], eager);
      DrainWellEnded(r, buf + tokens[0], eager);
      StreamWellEnded(r, tokens[1..], d.rest, d.eager);
      WellEndedConcat(d.chunks, Stream(r, tokens[1..], d.rest, d.eager), eager, d.eager);
    }
  }

  /** Only the first chunk may end at a clause mark, and only the last may end anywhere. */
  lemma {:induction false} ChunksWellEnded(r: Rules, tokens: seq<string>, eagerFirst: bool)
    requires r.Valid()
    ensures WellEnded(ButLast(Chunks(r, tokens, eagerFirst)), eagerFirst)
  {
    StreamWellEnded(r, tokens, "", eagerFirst);
  }

  // ---- points beside digits

  predicate DigitBefore(r: Rules, s: string, i: nat)
    requires i < |s|
  {
    i > 0 && r.digit(s[i - 1])
  }

  predicate DigitAfter(r: Rules, s: string, i: nat)
    requires i < |s|
  {
    i + 1 < |s| && r.digit(s[i + 1])
  }

  /** A text has no sentence end exactly when its only end marks are points with a digit on either side. */
  lemma {:induction false} NoSentenceEnd(r: Rules, s: string)
    ensures SentenceEnd(r, s).None?
       <==> forall i :: 0 <= i < |s| && IsEndMark(s[i]) ==> s[i] == '.' && (DigitBefore(r, s, i) || DigitAfter(r, s, i))
  {
    var p := FirstEnd(r, s, 0);
    if p.Some? {
      assert IsEndMark(s[p.value]) && EndsAt(r, s, p.value);
    } else {
      forall i | 0 <= i < |s| && IsEndMark(s[i])
        ensures s[i] == '.' && (DigitBefore(r, s, i) || DigitAfter(r, s, i))
      {
        assert !EndsAt(r, s, i);
      }
    }
  }

  /** The rule the source's comment describes: a point is kept together only between digits. */
  predicate EndsByComment(r: Rules, s: string, i: nat)
    requires i < |s|
  {
    IsEndMark(s[i]) && !(s[i] == '.' && DigitBefore(r, s, i) && DigitAfter(r, s, i))
  }

  function FirstByComment(r: Rules, s: string, i: nat): (p: Option<nat>)
    requires i <= |s|
    ensures p.Some? ==> i <= p.value < |s| && EndsByComment(r, s, p.value)
    ensures forall j :: i <= j < (if p.Some? then p.value else |s|) ==> !EndsByComment(r, s, j)
    decreases |s| - i
  {
    if i == |s| then None else if EndsByComment(r, s, i) then Some(i) else FirstByComment(r, s, i + 1)
  }

  function RunByComment(r: Rules, s: string, i: nat): (e: nat)
    requires i <= |s|
    ensures i <= e <= |s|
    ensures i < |s| && EndsByComment(r, s, i) ==> i < e
    ensures forall j :: i <= j < e ==> EndsByComment(r, s, j)
    ensures e < |s| ==> !EndsByComment(r, s, e)
    decreases |s| - i
  {
    if i < |s| && EndsByComment(r, s, i) then RunByComment(r, s, i + 1) else i
  }

  /** Where the last mark of the first match by the commented rule ends. */
  function MarksByComment(r: Rules, s: string): (e: Option<nat>)
    ensures e.Some? ==> 0 < e.value <= |s| && EndsByComment(r, s, e.value - 1)
  {
    var p :- FirstByComment(r, s, 0);
    Some(RunByComment(r, s, p))
  }

  function SentenceEndByComment(r: Rules, s: string): (k: Option<nat>) {
    var e :- MarksByComment(r, s);
    Some(ClosersEnd(s, e))
  }

  lemma {:induction false} RunIs(r: Rules, s: string, i: nat, e: nat)
    requires i < e <= |s|
    requires forall j :: i <= j < e ==> EndsAt(r, s, j)
    requires e < |s| ==> !EndsAt(r, s, e)
    ensures RunEnd(r, s, i) == e
  {
  }

  /** Inside a run of marks only the first can follow a digit, and only the last can come before one. */
  lemma {:induction false} InsideRun(r: Rules, s: string, p: nat, e: nat, j: nat)
    requires r.Valid()
    requires p < e <= |s| && forall k :: p <= k < e ==> EndsByComment(r, s, k)
    requires p <= j < e && !EndsAt(r, s, j)
    ensures s[j] == '.' && (j == p || j == e - 1)
  {
    assert EndsByComment(r, s, j);
    assert j > p ==> EndsByComment(r, s, j - 1);
    assert j + 1 < e ==> EndsByComment(r, s, j + 1);
  }

  /**
   The code and its comment find the same sentence end exactly when the last mark of the
   match by the comment is one for the code: a text parts them when that mark is a point
   with a digit on one side, as in "I have 3.".
   */
  lemma {:induction false} CommentAgrees(r: Rules, s: string)
    requires r.Valid()
    ensures SentenceEnd(r, s) == SentenceEndByComment(r, s)
       <==> MarksByComment(r, s).None? || EndsAt(r, s, MarksByComment(r, s).value - 1)
  {
    var p := FirstByComment(r, s, 0);
    var q := FirstEnd(r, s, 0);
    assert forall i :: 0 <= i < |s| && EndsAt(r, s, i) ==> EndsByComment(r, s, i);
    if p.Some? {
      var e := RunByComment(r, s, p.value);
      if EndsAt(r, s, e - 1) {
        LastMarkShared(r, s, p.value, e);
      } else {
        LastMarkSkipped(r, s, p.value, e);
      }
    }
  }

  lemma {:induction false} LastMarkShared(r: Rules, s: string, p: nat, e: nat)
    requires r.Valid()
    requires FirstByComment(r, s, 0) == Some(p) && RunByComment(r, s, p) == e && EndsAt(r, s, e - 1)
    ensures SentenceEnd(r, s) == Some(ClosersEnd(s, e))
  {
    var q := FirstEnd(r, s, 0);
    assert q.Some? && q.value < e && EndsByComment(r, s, q.value);
    forall j | q.value <= j < e ensures EndsAt(r, s, j) {
      if !EndsAt(r, s, j) {
        InsideRun(r, s, p, e, j);
      }
    }
    RunIs(r, s, q.value, e);
  }

  lemma {:induction false} LastMarkSkipped(r: Rules, s: string, p: nat, e: nat)
    requires r.Valid()
    requires FirstByComment(r, s, 0) == Some(p) && RunByComment(r, s, p) == e && !EndsAt(r, s, e - 1)
    ensures SentenceEnd(r, s) != Some(ClosersEnd(s, e))
  {
    var q := FirstEnd(r, s, 0);
    if q.Some? {
      var e' := RunEnd(r, s, q.value);
      assert EndsByComment(r, s, q.value) && p <= q.value < e';
      assert EndsAt(r, s, e' - 1) && e' != e;
      if e' < e {
        assert EndsByComment(r, s, e');
        assert ClosersEnd(s, e') == e';
      } else {
        assert !IsCloser(s[e' - 1]);
      }
    }
  }

  /** "I have 3." ends no sentence for the code; by the comment it would. */
  lemma {:induction false} PointAfterDigit(r: Rules)
    requires r.Valid() && r.digit('3')
    ensures SentenceEnd(r, "I have 3.").None?
    ensures SentenceEndByComment(r, "I have 3.") == Some(9)
  {
    var s := "I have 3.";
    NoSentenceEnd(r, s);
    assert EndsByComment(r, s, 8);
  }

  // ---- where exactly the cuts are

  predicate IsSentenceMark(r: Rules, s: string, i: nat)
    requires i < |s|
  {
    s[i] in "!?" || (s[i] == '.' && !DigitBefore(r, s, i) && !DigitAfter(r, s, i))
  }

  /** The leftmost boundary match, as long as it can be: marks from i to e, then closers to k. */
  ghost predicate FirstMatch(r: Rules, s: string, i: nat, e: nat, k: nat) {
    && i < e <= k <= |s|
    && (forall j :: 0 <= j < i ==> !IsSentenceMark(r, s, j))
    && (forall j :: i <= j < e ==> IsSentenceMark(r, s, j))
    && (e < |s| ==> !IsSentenceMark(r, s, e))
    && (forall j :: e <= j < k ==> s[j] in "\"')]")
    && (k < |s| ==> s[k] !in "\"')]")
  }

  lemma {:induction false} MarksAreEnds(r: Rules, s: string)
    ensures forall i :: 0 <= i < |s| ==> (EndsAt(r, s, i) <==> IsSentenceMark(r, s, i))
    ensures forall i :: 0 <= i < |s| ==> (IsCloser(s[i]) <==> s[i] in "\"')]")
    ensures forall i :: 0 <= i < |s| ==> (IsClauseMark(s[i]) <==> s[i] in ",;:")
  {
  }

  lemma {:induction false} SentenceEndExactly(r: Rules, s: string, k: nat)
    ensures SentenceEnd(r, s) == Some(k) <==> exists i: nat, e: nat :: FirstMatch(r, s, i, e, k)
  {
    MarksAreEnds(r, s);
    if SentenceEnd(r, s) == Some(k) {
      var i := FirstEnd(r, s, 0).value;
      var e := RunEnd(r, s, i);
      assert e > i && k == ClosersEnd(s, e);
      assert FirstMatch(r, s, i, e, k);
    }
    if exists i: nat, e: nat :: FirstMatch(r, s, i, e, k) {
      var i: nat, e: nat :| FirstMatch(r, s, i, e, k);
      MatchIsFound(r, s, i, e, k);
    }
  }

  lemma {:induction false} MatchIsFound(r: Rules, s: string, i: nat, e: nat, k: nat)
    requires FirstMatch(r, s, i, e, k)
    ensures SentenceEnd(r, s) == Some(k)
  {
    MarksAreEnds(r, s);
    var p := FirstEnd(r, s, 0);
    assert IsSentenceMark(r, s, i);
    assert p == Some(i);
    RunIs(r, s, i, e);
    var k' := ClosersEnd(s, e);
    assert k < |s| ==> !IsCloser(s[k]);
    assert k' < |s| ==> !IsCloser(s[k']);
  }

  /** The first clause mark from position firstMinChars on is just before k. */
  ghost predicate FirstClause(r: Rules, s: string, k: nat) {
    var from := if r.firstMinChars < 0 then 0 else r.firstMinChars;
    && from < k <= |s| && s[k - 1] in ",;:"
    && forall j :: from <= j < k - 1 ==> s[j] !in ",;:"
  }

  lemma {:induction false} ClauseIsFound(r: Rules, s: string, k: nat)
    requires ClauseFrom(r) <= |s|
    ensures ClauseEnd(s, ClauseFrom(r)) == Some(k) <==> FirstClause(r, s, k)
  {
    MarksAreEnds(r, s);
    var c := ClauseEnd(s, ClauseFrom(r));
    if FirstClause(r, s, k) {
      assert IsClauseMark(s[k - 1]);
      assert c.Some? && c.value <= k;
      assert s[c.value - 1] in ",;:";
    }
  }

  /**
   The first chunk is cut at the clause mark exactly in eager mode, with enough text, when
   no sentence mark stands before it; in every other case the cut is the sentence's end.
   */
  lemma {:induction false} EagerCutExactly(r: Rules, s: string, eager: bool, k: nat)
    requires eager && |s| >= r.firstMinChars && FirstClause(r, s, k)
    ensures NextCut(r, s, eager) == Some(k) <==> forall j :: 0 <= j < k ==> !IsSentenceMark(r, s, j)
    ensures NextCut(r, s, eager) == Some(k) || NextCut(r, s, eager) == SentenceEnd(r, s)
  {
    MarksAreEnds(r, s);
    ClauseIsFound(r, s, k);
    var p := FirstEnd(r, s, 0);
    if p.Some? && p.value < k {
      EndBeforeClause(r, s, p.value, k);
      assert IsSentenceMark(r, s, p.value);
    }
  }

  lemma {:induction false} EndBeforeClause(r: Rules, s: string, p: nat, k: nat)
    requires p < k <= |s| && IsClauseMark(s[k - 1]) && EndsAt(r, s, p)
    ensures ClosersEnd(s, RunEnd(r, s, p)) < k
  {
    var e := RunEnd(r, s, p);
    assert !EndsAt(r, s, k - 1) && !IsCloser(s[k - 1]);
    var c := ClosersEnd(s, e);
    assert forall j :: p <= j < e ==> EndsAt(r, s, j);
    assert forall j :: e <= j < c ==> IsCloser(s[j]);
  }

  lemma {:induction false} PlainCut(r: Rules, s: string, eager: bool)
    requires !eager || |s| < r.firstMinChars || forall k: nat :: !FirstClause(r, s, k)
    ensures NextCut(r, s, eager) == SentenceEnd(r, s)
  {
    if eager && |s| >= r.firstMinChars {
      var c := ClauseEnd(s, ClauseFrom(r));
      if c.Some? {
        ClauseIsFound(r, s, c.value);
      }
    }
  }

  lemma {:induction false} OneToken(r: Rules, text: string, eager: bool)
    ensures Chunks(r, [text], eager) == Whole(r, text, eager)
  {
    var none: seq<string> := [];
    assert "" + text == text && [text][1..] == none;
    var d := Drain(r, text, eager);
    assert Stream(r, [text], "", eager) == d.chunks + Stream(r, none, d.rest, d.eager);
    assert Stream(r, none, d.rest, d.eager) == Flush(r, d.rest);
    WholeIsDrain(r, text, eager);
  }

  /** The chunks one after the other: the text up to its first cut, and then those of the rest, in plain mode. */
  lemma {:induction false} ChunksExactly(r: Rules, tokens: seq<string>, eagerFirst: bool)
    requires r.Valid() && SafeAfter(r, "", tokens)
    ensures var text := Concat(tokens);
            var chunks := Chunks(r, tokens, eagerFirst);
            match NextCut(r, text, eagerFirst)
            case None => chunks == if Strip(r.space, text) == "" then [] else [Strip(r.space, text)]
            case Some(k) => chunks == [Strip(r.space, text[..k])] + Chunks(r, [text[k..]], false)
  {
    var text := Concat(tokens);
    StreamingAgreesWithWhole(r, tokens, eagerFirst);
    OneToken(r, text, eagerFirst);
    var cut := NextCut(r, text, eagerFirst);
    if cut.Some? {
      WholeCut(r, text, eagerFirst, cut.value);
      WholeSkipsSpace(r, text[cut.value..]);
      OneToken(r, text[cut.value..], false);
    }
  }

  /** An eager reply that goes on past a clause mark is first spoken up to that mark. */
  lemma {:induction false} EagerFirstChunk(r: Rules, tokens: seq<string>, k: nat)
    requires r.Valid() && SafeAfter(r, "", tokens)
    requires |Concat(tokens)| >= r.firstMinChars && FirstClause(r, Concat(tokens), k)
    requires forall j :: 0 <= j < k ==> !IsSentenceMark(r, Concat(tokens), j)
    ensures Chunks(r, tokens, true) != []
    ensures Chunks(r, tokens, true)[0] == Strip(r.space, Concat(tokens)[..k])
  {
    EagerCutExactly(r, Concat(tokens), true, k);
    ChunksExactly(r, tokens, true);
  }
}
