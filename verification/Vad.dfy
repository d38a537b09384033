/**
 The voice activity segmenter (voice-sidecar/vad.py): a hysteresis state machine over one
 energy value per frame, and what it means on the history of frames since the last reset.
 */
module Vad {

  datatype Tuning = Tuning(startRms: real, endRms: real, startFrames: int, hangFrames: int) {
    /** How many frames it takes; a setting of zero or less acts like one. */
    function NeedVoiced(): nat { if startFrames < 1 then 1 else startFrames }
    function NeedSilent(): nat { if hangFrames < 1 then 1 else hangFrames }
  }

  datatype Signal = Quiet | Start | End

  datatype State = State(speaking: bool, voicedRun: nat, silentRun: nat)

  const RESET: State := State(false, 0, 0)

  function Push(c: Tuning, s: State, rms: real): (Signal, State) {
    if !s.speaking then
      if rms >= c.startRms then
        if s.voicedRun + 1 >= c.startFrames then (Start, State(true, 0, 0))
        else (Quiet, s.(voicedRun := s.voicedRun + 1))
      else (Quiet, s.(voicedRun := 0))
    else if rms < c.endRms then
      if s.silentRun + 1 >= c.hangFrames then (End, State(false, 0, 0))
      else (Quiet, s.(silentRun := s.silentRun + 1))
    else (Quiet, s.(silentRun := 0))
  }

  function StateAfter(c: Tuning, h: seq<real>): State {
    if h == [] then RESET else Push(c, StateAfter(c, h[..|h| - 1]), h[|h| - 1]).1
  }

  /** What pushing the last frame of the history returned. */
  function SignalOf(c: Tuning, h: seq<real>): Signal
    requires h != []
  {
    Push(c, StateAfter(c, h[..|h| - 1]), h[|h| - 1]).0
  }

  class VadSegmenter {
    const tuning: Tuning
    var speaking: bool
    var voicedRun: int
    var silentRun: int
    ghost var history: seq<real>   // the frames since the last reset

    ghost predicate Valid()
      reads this
    {
      voicedRun >= 0 && silentRun >= 0 && State(speaking, voicedRun, silentRun) == StateAfter(tuning, history)
    }

    ghost function Current(): State
      requires Valid()
      reads this
    {
      State(speaking, voicedRun, silentRun)
    }

    constructor (tuning: Tuning)
      ensures Valid() && history == [] && Current() == RESET && this.tuning == tuning
    {
      this.tuning := tuning;
      speaking, voicedRun, silentRun, history := false, 0, 0, [];
    }

    method Reset()
      modifies this
      ensures Valid() && history == [] && Current() == RESET
    {
      speaking, voicedRun, silentRun, history := false, 0, 0, [];
    }

    method PushRms(rms: real) returns (signal: Signal)
      requires Valid()
      modifies this
      ensures Valid() && history == old(history) + [rms]
      ensures signal == SignalOf(tuning, history)
      ensures (signal, Current()) == Push(tuning, old(Current()), rms)
      ensures speaking == Segments(tuning, history).open
    {
      history := history + [rms];
      assert history[..|history| - 1] == old(history);
      Refines(tuning, history);
      signal := Quiet;
      if !speaking {
        if rms >= tuning.startRms {
          voicedRun := voicedRun + 1;
          if voicedRun >= tuning.startFrames {
            speaking, voicedRun, silentRun, signal := true, 0, 0, Start;
          }
        } else {
          voicedRun := 0;
        }
        return;
      }
      if rms < tuning.endRms {
        silentRun := silentRun + 1;
        if silentRun >= tuning.hangFrames {
          speaking, voicedRun, silentRun, signal := false, 0, 0, End;
        }
      } else {
        silentRun := 0;
      }
    }
  }

  // ---- the same, said of the history

  /** The last n frames satisfy the test. */
  predicate Last(test: real -> bool, h: seq<real>, n: nat)
    requires n <= |h|
  {
    forall i :: |h| - n <= i < |h| ==> test(h[i])
  }

  function Voiced(c: Tuning): real -> bool { rms => rms >= c.startRms }
  function Silent(c: Tuning): real -> bool { rms => rms < c.endRms }

  /** Whether a segment is open, and how many frames had been seen at the last boundary. */
  datatype Segmentation = Segmentation(open: bool, since: nat)

  /** Enough frames since the last boundary, and the last of them all voiced. */
  predicate StartsHere(c: Tuning, h: seq<real>, since: nat) {
    since + c.NeedVoiced() <= |h| && Last(Voiced(c), h, c.NeedVoiced())
  }

  predicate EndsHere(c: Tuning, h: seq<real>, since: nat) {
    since + c.NeedSilent() <= |h| && Last(Silent(c), h, c.NeedSilent())
  }

  function Segments(c: Tuning, h: seq<real>): (g: Segmentation)
    ensures g.since <= |h|
  {
    if h == [] then Segmentation(false, 0)
    else
      var g := Segments(c, h[..|h| - 1]);
      if !g.open && StartsHere(c, h, g.since) then Segmentation(true, |h|)
      else if g.open && EndsHere(c, h, g.since) then Segmentation(false, |h|)
      else g
  }

  /** run counts the frames at the end of h, after position since, that satisfy the test. */
  ghost predicate IsRun(test: real -> bool, h: seq<real>, since: nat, run: nat) {
    && since + run <= |h|
    && Last(test, h, run)
    && (since + run < |h| ==> !test(h[|h| - run - 1]))
  }

  /** The counters are the lengths of the current runs. */
  ghost predicate CountersFit(c: Tuning, h: seq<real>) {
    var s, g := StateAfter(c, h), Segments(c, h);
    && s.speaking == g.open
    && (if g.open then s.voicedRun == 0 && s.silentRun < c.NeedSilent() && IsRun(Silent(c), h, g.since, s.silentRun)
        else s.silentRun == 0 && s.voicedRun < c.NeedVoiced() && IsRun(Voiced(c), h, g.since, s.voicedRun))
  }

  lemma {:induction false} RunExtends(test: real -> bool, h: seq<real>, since: nat, run: nat, n: nat)
    requires h != [] && IsRun(test, h[..|h| - 1], since, run) && n > 0
    ensures test(h[|h| - 1]) ==> IsRun(test, h, since, run + 1)
    ensures !test(h[|h| - 1]) ==> IsRun(test, h, since, 0)
    ensures since + n <= |h| ==> (Last(test, h, n) <==> test(h[|h| - 1]) && n <= run + 1)
  {
    var p := h[..|h| - 1];
    assert forall i :: 0 <= i < |p| ==> p[i] == h[i];
    if since + n <= |h| && n > run + 1 {
      assert !test(p[|p| - run - 1]);
      assert h[|h| - run - 2] == p[|p| - run - 1];
    }
  }

  /**
   A start is signalled exactly when no segment is open and the last startFrames frames, all
   after the last boundary, are voiced; an end exactly when one is open and the last
   hangFrames frames since then are silent.
   */
  lemma {:induction false} Refines(c: Tuning, h: seq<real>)
    ensures CountersFit(c, h)
    ensures h != [] ==>
              var g := Segments(c, h[..|h| - 1]);
              && (SignalOf(c, h) == Start <==> !g.open && StartsHere(c, h, g.since))
              && (SignalOf(c, h) == End <==> g.open && EndsHere(c, h, g.since))
  {
    if h != [] {
      var p := h[..|h| - 1];
      Refines(c, p);
      var s, g := StateAfter(c, p), Segments(c, p);
      if g.open {
        RunExtends(Silent(c), h, g.since, s.silentRun, c.NeedSilent());
      } else {
        RunExtends(Voiced(c), h, g.since, s.voicedRun, c.NeedVoiced());
      }
    }
  }

  // ---- counting

  function Count(c: Tuning, h: seq<real>, signal: Signal): nat {
    if h == [] then 0
    else Count(c, h[..|h| - 1], signal) + (if SignalOf(c, h) == signal then 1 else 0)
  }

  /** Starts and ends alternate, starting with a start. */
  lemma {:induction false} SignalsAlternate(c: Tuning, h: seq<real>)
    ensures Count(c, h, Start) == Count(c, h, End) + if Segments(c, h).open then 1 else 0
    ensures h != [] && SignalOf(c, h) == Start ==> Count(c, h[..|h| - 1], Start) == Count(c, h[..|h| - 1], End)
    ensures h != [] && SignalOf(c, h) == End ==> Count(c, h[..|h| - 1], Start) == Count(c, h[..|h| - 1], End) + 1
  {
    if h != [] {
      SignalsAlternate(c, h[..|h| - 1]);
      Refines(c, h);
    }
  }

  function Times(n: nat, k: nat): nat {
    if n == 0 then 0 else Times(n - 1, k) + k
  }

  lemma {:induction false} TimesIsProduct(n: nat, k: nat)
    ensures Times(n, k) == n * k
  {
    if n > 0 {
      TimesIsProduct(n - 1, k);
      assert n * k == (n - 1) * k + k;
    }
  }

  lemma {:induction false} SegmentsTake(c: Tuning, h: seq<real>)
    ensures Times(Count(c, h, End), c.NeedVoiced() + c.NeedSilent()) + (if Segments(c, h).open then c.NeedVoiced() else 0)
         <= Segments(c, h).since
    decreases |h|
  {
    if h != [] {
      SegmentsTake(c, h[..|h| - 1]);
      Refines(c, h);
    }
  }

  /** Every finished segment took its voiced and its silent frames: segments cannot come faster than that. */
  lemma {:induction false} SegmentsTakeTime(c: Tuning, h: seq<real>)
    ensures Count(c, h, End) * (c.NeedVoiced() + c.NeedSilent()) <= |h|
  {
    SegmentsTake(c, h);
    TimesIsProduct(Count(c, h, End), c.NeedVoiced() + c.NeedSilent());
  }
}
