/**
 The hands-free turn loop (voice-sidecar/live.py) over a stream of frames. Which turn
 workers have ended, and whether audio is playing, is decided afresh at every frame by
 the environment.
 */
module LiveLoop {
  import opened Wrappers
  import Vad

  const PREROLL_FRAMES: nat := 8
  const COOLDOWN_FRAMES: nat := 8
  const LISTEN: Vad.Tuning := Vad.Tuning(500.0, 350.0, 3, 25)

  function BargeTuning(bargeRms: real): Vad.Tuning {
    Vad.Tuning(bargeRms, 350.0, 4, 25)
  }

  /** A microphone frame: its energy, its place in the run, and whether the assistant was speaking then. */
  datatype Frame = Frame(index: nat, rms: real, duringSpeech: bool)

  /** An utterance handed to a worker: the first lead frames are the preroll; end is the last frame's place. */
  datatype Turn = Turn(frames: seq<Frame>, lead: nat, end: nat)

  datatype Mode = HalfDuplex | BargeIn(bargeRms: real)

  /** What the environment did before a frame: workers that ended, and whether audio plays now. */
  datatype World = World(ended: set<nat>, playing: bool)

  datatype Live = Live(
    preroll: seq<Frame>,
    utter: seq<Frame>,
    lead: nat,                   // how much of utter is preroll
    capturing: bool,
    wasBusy: bool,
    cooldown: nat,
    worker: Option<nat>,         // the latest worker
    alive: set<nat>,             // the workers still running
    listen: Vad.State,
    barge: Vad.State,
    seen: seq<Frame>,
    turns: seq<Turn>)

  const READY: Live := Live([], [], 0, false, false, 0, None, {}, Vad.RESET, Vad.RESET, [], [])

  function Kept(preroll: seq<Frame>, frame: Frame): seq<Frame> {
    var longer := preroll + [frame];
    if |longer| > PREROLL_FRAMES then longer[1..] else longer
  }

  /** Whether a worker still runs, or audio plays, when a frame is looked at. */
  function Busy(s: Live, w: World): bool {
    (s.worker.Some? && s.worker.value in s.alive - w.ended) || w.playing
  }

  /** One pass of the loop body. */
  function Step(mode: Mode, s0: Live, rms: real, w: World): Live {
    var speaking := !s0.capturing && Busy(s0, w);
    var frame := Frame(|s0.seen|, rms, speaking);
    var s := s0.(alive := s0.alive - w.ended, seen := s0.seen + [frame]);
    if speaking then WhileSpeaking(mode, s, frame)
    else
      var s1 := if s.wasBusy then AfterSpeech(mode, s) else s;
      if s1.cooldown > 0 then s1.(cooldown := s1.cooldown - 1)
      else if s1.capturing then Capture(s1, frame)
      else Listen(s1, frame)
  }

  function WhileSpeaking(mode: Mode, s: Live, frame: Frame): Live {
    var pushed := if mode.BargeIn? then Vad.Push(BargeTuning(mode.bargeRms), s.barge, frame.rms) else (Vad.Quiet, s.barge);
    if pushed.0 == Vad.Start then Interrupted(s.(barge := pushed.1), frame)
    else s.(barge := pushed.1, preroll := Kept(s.preroll, frame), wasBusy := true)
  }

  /** The user talks over the assistant: the frame and its preroll begin an utterance. */
  function Interrupted(s: Live, frame: Frame): Live {
    s.(listen := Vad.RESET, capturing := true, utter := s.preroll + [frame], lead := |s.preroll| + 1, preroll := [])
  }

  function AfterSpeech(mode: Mode, s: Live): Live {
    var s1 := s.(listen := Vad.RESET, barge := Vad.RESET, wasBusy := false);
    if mode.HalfDuplex? then s1.(preroll := [], cooldown := COOLDOWN_FRAMES) else s1
  }

  function Capture(s: Live, frame: Frame): Live {
    var (signal, listen) := Vad.Push(LISTEN, s.listen, frame.rms);
    var s1 := s.(listen := listen, utter := s.utter + [frame]);
    if signal == Vad.End then HandedOver(s1, frame.index) else s1
  }

  /** A new worker gets the utterance; only the latest worker is kept hold of. */
  function HandedOver(s: Live, end: nat): Live {
    var id := |s.turns|;
    s.(capturing := false, utter := [], worker := Some(id), alive := s.alive + {id},
       turns := s.turns + [Turn(s.utter, s.lead, end)])
  }

  function Listen(s: Live, frame: Frame): Live {
    var preroll := Kept(s.preroll, frame);
    var (signal, listen) := Vad.Push(LISTEN, s.listen, frame.rms);
    if signal == Vad.Start then s.(preroll := preroll, listen := listen, capturing := true, utter := preroll, lead := |preroll|)
    else s.(preroll := preroll, listen := listen)
  }

  function Run(mode: Mode, s: Live, inputs: seq<(real, World)>): Live
    decreases |inputs|
  {
    if inputs == [] then s else Run(mode, Step(mode, s, inputs[0].0, inputs[0].1), inputs[1..])
  }

  // ---- what a half-duplex run keeps

  ghost predicate Voiced(frames: seq<Frame>) {
    forall i :: 0 <= i < |frames| ==> frames[i].rms >= LISTEN.startRms
  }

  ghost predicate Silent(frames: seq<Frame>) {
    forall i :: 0 <= i < |frames| ==> frames[i].rms < LISTEN.endRms
  }

  /** The last n frames, as far as there are that many, were not taken while the assistant spoke. */
  ghost predicate QuietBefore(seen: seq<Frame>, end: nat, n: nat)
    requires end <= |seen|
  {
    forall j :: 0 <= j < end && end - n <= j ==> !seen[j].duringSpeech
  }

  /** The frame is where it says, and neither it nor the eight frames before it fall in the assistant's speech. */
  ghost predicate CleanFrame(f: Frame, seen: seq<Frame>) {
    f.index < |seen| && seen[f.index] == f && !f.duringSpeech && QuietBefore(seen, f.index, COOLDOWN_FRAMES)
  }

  ghost predicate Clean(frames: seq<Frame>, seen: seq<Frame>) {
    forall i :: 0 <= i < |frames| ==> CleanFrame(frames[i], seen)
  }

  function LastN(frames: seq<Frame>, n: nat): seq<Frame>
    requires n <= |frames|
  {
    frames[|frames| - n..]
  }

  /**
   frames, with seen as everything up to now: at most eight preroll frames, the last three
   of them voiced and consecutive, then every frame since; none while the assistant spoke
   or in the eight frames after.
   */
  ghost predicate Capturing(frames: seq<Frame>, lead: nat, seen: seq<Frame>) {
    && 3 <= lead <= PREROLL_FRAMES && lead <= |frames| && |frames| - lead + 3 <= |seen|
    && frames[lead - 3..] == LastN(seen, |frames| - lead + 3)
    && Voiced(frames[lead - 3..lead])
    && Clean(frames, seen)
  }

  /** A handed-over utterance: captured up to its last frame, ending in the closing silence. */
  ghost predicate GoodTurn(t: Turn, seen: seq<Frame>) {
    && t.end < |seen|
    && Capturing(t.frames, t.lead, seen[..t.end + 1])
    && |t.frames| - t.lead >= 25
    && Silent(LastN(t.frames, 25))
  }

  /** Where the captured part of a turn, without the older preroll, begins. */
  function Begin(t: Turn): int {
    t.end + 1 - (|t.frames| - t.lead) - 3
  }

  function LastEnd(s: Live): int {
    if s.turns == [] then 0 else s.turns[|s.turns| - 1].end + 1
  }

  ghost predicate TurnsOk(s: Live) {
    && (forall i :: 0 <= i < |s.turns| ==> GoodTurn(s.turns[i], s.seen))
    && (forall i :: 0 < i < |s.turns| ==> s.turns[i - 1].end < Begin(s.turns[i]))
  }

  ghost predicate WorkersOk(s: Live) {
    && (s.worker == if s.turns == [] then None else Some(|s.turns| - 1))
    && (forall id :: id in s.alive ==> s.worker == Some(id))
    && (s.capturing ==> s.alive == {})
  }

  ghost predicate ListenOk(s: Live) {
    && s.listen.voicedRun < 3 && s.listen.silentRun < 25
    && (!s.capturing && !s.wasBusy ==>
          && s.listen.voicedRun <= |s.preroll| && s.listen.voicedRun <= |s.seen|
          && LastN(s.preroll, s.listen.voicedRun) == LastN(s.seen, s.listen.voicedRun)
          && Voiced(LastN(s.preroll, s.listen.voicedRun))
          && LastEnd(s) <= |s.seen| - s.listen.voicedRun
          && (s.cooldown > 0 ==> s.listen.voicedRun == 0)
          && Clean(s.preroll, s.seen))
    && (s.capturing ==>
          && Capturing(s.utter, s.lead, s.seen)
          && s.listen.silentRun <= |s.utter| - s.lead
          && Silent(LastN(s.utter, s.listen.silentRun))
          && LastEnd(s) <= |s.seen| - (|s.utter| - s.lead) - 3)
  }

  ghost predicate Inv(s: Live) {
    && (s.capturing <==> s.listen.speaking)
    && (s.capturing ==> s.cooldown == 0 && !s.wasBusy && Clean(s.preroll, s.seen))
    && |s.preroll| <= PREROLL_FRAMES
    && s.cooldown <= COOLDOWN_FRAMES
    && (!s.wasBusy ==> QuietBefore(s.seen, |s.seen|, COOLDOWN_FRAMES - s.cooldown))
    && LastEnd(s) <= |s.seen|
    && WorkersOk(s)
    && ListenOk(s)
    && TurnsOk(s)
  }

  // ---- frames lists

  lemma {:induction false} LastNOfAppend(a: seq<Frame>, f: Frame, n: nat)
    requires n <= |a|
    ensures LastN(a + [f], n + 1) == LastN(a, n) + [f]
  {
  }

  lemma {:induction false} LastNOfKept(preroll: seq<Frame>, f: Frame, n: nat)
    requires n <= |preroll| <= PREROLL_FRAMES && n < PREROLL_FRAMES
    ensures |Kept(preroll, f)| <= PREROLL_FRAMES
    ensures n + 1 <= |Kept(preroll, f)|
    ensures LastN(Kept(preroll, f), n + 1) == LastN(preroll, n) + [f]
  {
  }

  lemma {:induction false} CleanStays(frames: seq<Frame>, seen: seq<Frame>, f: Frame)
    requires Clean(frames, seen)
    ensures Clean(frames, seen + [f])
  {
    forall i | 0 <= i < |frames| ensures CleanFrame(frames[i], seen + [f]) {
      assert CleanFrame(frames[i], seen);
    }
  }

  lemma {:induction false} CleanGrows(frames: seq<Frame>, seen: seq<Frame>, f: Frame)
    requires Clean(frames, seen) && !f.duringSpeech && f.index == |seen|
    requires QuietBefore(seen, |seen|, COOLDOWN_FRAMES)
    ensures Clean(frames + [f], seen + [f])
    ensures |frames| <= PREROLL_FRAMES ==> Clean(Kept(frames, f), seen + [f])
  {
    CleanStays(frames, seen, f);
    assert CleanFrame(f, seen + [f]);
    assert Clean(frames + [f], seen + [f]);
  }

  lemma {:induction false} GoodTurnStays(t: Turn, seen: seq<Frame>, f: Frame)
    requires GoodTurn(t, seen)
    ensures GoodTurn(t, seen + [f])
  {
    assert (seen + [f])[..t.end + 1] == seen[..t.end + 1];
  }

  lemma {:induction false} TurnsStay(s: Live, s': Live, f: Frame)
    requires TurnsOk(s) && s'.turns == s.turns && s'.seen == s.seen + [f]
    ensures TurnsOk(s')
  {
    forall i | 0 <= i < |s'.turns| ensures GoodTurn(s'.turns[i], s'.seen) {
      GoodTurnStays(s.turns[i], s.seen, f);
    }
  }

  lemma {:induction false} CapturingGrows(frames: seq<Frame>, lead: nat, seen: seq<Frame>, f: Frame)
    requires Capturing(frames, lead, seen) && !f.duringSpeech && f.index == |seen|
    requires QuietBefore(seen, |seen|, COOLDOWN_FRAMES)
    ensures Capturing(frames + [f], lead, seen + [f])
  {
    LastNOfAppend(seen, f, |frames| - lead + 3);
    assert (frames + [f])[lead - 3..] == frames[lead - 3..] + [f];
    assert (frames + [f])[lead - 3..lead] == frames[lead - 3..lead];
    CleanGrows(frames, seen, f);
  }

  lemma {:induction false} CapturingStarts(preroll: seq<Frame>, seen: seq<Frame>)
    requires 3 <= |preroll| <= PREROLL_FRAMES && 3 <= |seen|
    requires LastN(preroll, 3) == LastN(seen, 3) && Voiced(LastN(preroll, 3))
    requires Clean(preroll, seen)
    ensures Capturing(preroll, |preroll|, seen)
  {
    assert preroll[|preroll| - 3..|preroll|] == LastN(preroll, 3);
  }

  // ---- the branches of the loop body, in half-duplex mode

  lemma {:induction false} SpeakingKeeps(s: Live, s': Live, f: Frame)
    requires Inv(s) && !s.capturing
    requires s' == s.(alive := s'.alive, seen := s.seen + [f], preroll := Kept(s.preroll, f), wasBusy := true)
    requires s'.alive <= s.alive
    ensures Inv(s')
  {
    TurnsStay(s, s', f);
  }

  lemma {:induction false} WaitingKeeps(s: Live, s': Live, f: Frame)
    requires Inv(s) && !s.capturing && !f.duringSpeech && f.index == |s.seen|
    requires s.wasBusy || s.cooldown > 0
    requires s'.alive <= s.alive
    requires s' == (if s.wasBusy then AfterSpeech(HalfDuplex, s) else s).(
                     alive := s'.alive, seen := s.seen + [f], cooldown := if s.wasBusy then 7 else s.cooldown - 1)
    ensures Inv(s')
  {
    TurnsStay(s, s', f);
    assert LastN(s'.preroll, 0) == [] == LastN(s'.seen, 0);
    if !s.wasBusy {
      CleanStays(s.preroll, s.seen, f);
    }
  }

  /** What one more captured frame does, whether or not it closes the utterance. */
  lemma {:induction false} CaptureShared(s: Live, s1: Live, f: Frame)
    requires Inv(s) && s.capturing && !f.duringSpeech && f.index == |s.seen|
    requires s1 == s.(seen := s1.seen) && s1.seen == s.seen + [f]
    ensures Capturing(s.utter + [f], s.lead, s1.seen)
    ensures Clean(s.preroll, s1.seen) && QuietBefore(s1.seen, |s1.seen|, COOLDOWN_FRAMES)
    ensures TurnsOk(s1)
    ensures s.listen.silentRun <= |s.utter| - s.lead
    ensures LastN(s.utter + [f], s.listen.silentRun + 1) == LastN(s.utter, s.listen.silentRun) + [f]
    ensures Silent(LastN(s.utter, s.listen.silentRun))
    ensures LastEnd(s) <= |s1.seen| - (|s.utter| + 1 - s.lead) - 3
  {
    CapturingGrows(s.utter, s.lead, s.seen, f);
    TurnsStay(s, s1, f);
    LastNOfAppend(s.utter, f, s.listen.silentRun);
    CleanStays(s.preroll, s.seen, f);
  }

  lemma {:induction false} CaptureContinues(s: Live, s': Live, f: Frame, silentRun: nat)
    requires Inv(s) && s.capturing && !f.duringSpeech && f.index == |s.seen|
    requires silentRun == if f.rms < LISTEN.endRms then s.listen.silentRun + 1 else 0
    requires silentRun < 25
    requires s' == s.(seen := s.seen + [f], utter := s.utter + [f], listen := s.listen.(silentRun := silentRun))
    ensures Inv(s')
  {
    var s1 := s.(seen := s.seen + [f]);
    CaptureShared(s, s1, f);
    if silentRun == 0 {
      assert LastN(s'.utter, 0) == [];
    }
  }

  lemma {:induction false} CaptureEnds(s: Live, s': Live, f: Frame)
    requires Inv(s) && s.capturing && !f.duringSpeech && f.index == |s.seen|
    requires f.rms < LISTEN.endRms && s.listen.silentRun + 1 == 25
    requires var s1 := s.(seen := s.seen + [f], utter := s.utter + [f], listen := Vad.RESET);
             s' == HandedOver(s1, f.index)
    ensures Inv(s')
  {
    var s1 := s.(seen := s.seen + [f]);
    CaptureShared(s, s1, f);
    var t := Turn(s.utter + [f], s.lead, f.index);
    assert s1.seen[..t.end + 1] == s1.seen;
    assert GoodTurn(t, s1.seen);
    TurnAdded(s1, s', t);
    assert LastN(s'.preroll, 0) == [] == LastN(s'.seen, 0);
  }

  lemma {:induction false} CaptureKeeps(s: Live, f: Frame, alive: set<nat>)
    requires Inv(s) && s.capturing && !f.duringSpeech && f.index == |s.seen|
    requires alive <= s.alive
    ensures Inv(Capture(s.(alive := alive, seen := s.seen + [f]), f))
  {
    var s' := Capture(s.(alive := alive, seen := s.seen + [f]), f);
    assert s.(alive := alive) == s;
    var silentRun := if f.rms < LISTEN.endRms then s.listen.silentRun + 1 else 0;
    if silentRun < 25 {
      CaptureContinues(s, s', f, silentRun);
    } else {
      CaptureEnds(s, s', f);
    }
  }

  lemma {:induction false} TurnAdded(s: Live, s': Live, t: Turn)
    requires TurnsOk(s) && GoodTurn(t, s.seen)
    requires LastEnd(s) <= Begin(t)
    requires s'.seen == s.seen && s'.turns == s.turns + [t]
    ensures TurnsOk(s')
  {
    forall i | 0 < i < |s'.turns| ensures s'.turns[i - 1].end < Begin(s'.turns[i]) {
      if i == |s.turns| {
        assert s'.turns[i - 1] == s.turns[|s.turns| - 1];
      }
    }
  }

  /** What listening leaves alone, whatever the frame. */
  lemma {:induction false} ListenShared(s: Live, s': Live, f: Frame)
    requires Inv(s) && !s.capturing && !s.wasBusy && s.cooldown == 0 && !f.duringSpeech && f.index == |s.seen|
    requires s'.preroll == Kept(s.preroll, f) && s'.seen == s.seen + [f] && s'.turns == s.turns
    requires s'.worker == s.worker && s'.alive <= s.alive
    ensures |s'.preroll| <= PREROLL_FRAMES && Clean(s'.preroll, s'.seen)
    ensures QuietBefore(s'.seen, |s'.seen|, COOLDOWN_FRAMES)
    ensures TurnsOk(s') && LastEnd(s') == LastEnd(s) <= |s'.seen|
    ensures s'.worker == if s'.turns == [] then None else Some(|s'.turns| - 1)
    ensures forall id :: id in s'.alive ==> s'.worker == Some(id)
  {
    TurnsStay(s, s', f);
    CleanGrows(s.preroll, s.seen, f);
  }

  lemma {:induction false} ListenQuiet(s: Live, s': Live, f: Frame)
    requires Inv(s) && !s.capturing && !s.wasBusy && s.cooldown == 0 && !f.duringSpeech && f.index == |s.seen|
    requires f.rms < LISTEN.startRms
    requires s' == s.(alive := s'.alive, seen := s.seen + [f], preroll := Kept(s.preroll, f),
                      listen := s.listen.(voicedRun := 0))
    requires s'.alive <= s.alive
    ensures Inv(s')
  {
    ListenShared(s, s', f);
    assert LastN(s'.preroll, 0) == [] == LastN(s'.seen, 0);
  }

  lemma {:induction false} ListenVoiced(s: Live, s': Live, f: Frame)
    requires Inv(s) && !s.capturing && !s.wasBusy && s.cooldown == 0 && !f.duringSpeech && f.index == |s.seen|
    requires f.rms >= LISTEN.startRms && s.listen.voicedRun + 1 < 3
    requires s' == s.(alive := s'.alive, seen := s.seen + [f], preroll := Kept(s.preroll, f),
                      listen := s.listen.(voicedRun := s.listen.voicedRun + 1))
    requires s'.alive <= s.alive
    ensures Inv(s')
  {
    ListenShared(s, s', f);
    VoicedExtends(s, f);
  }

  lemma {:induction false} ListenStarts(s: Live, s': Live, f: Frame)
    requires Inv(s) && !s.capturing && !s.wasBusy && s.cooldown == 0 && !f.duringSpeech && f.index == |s.seen|
    requires f.rms >= LISTEN.startRms && s.listen.voicedRun + 1 >= 3
    requires var kept := Kept(s.preroll, f);
             s' == s.(alive := {}, seen := s.seen + [f], preroll := kept, utter := kept, lead := |kept|,
                      capturing := true, listen := Vad.State(true, 0, 0))
    ensures Inv(s')
  {
    ListenShared(s, s', f);
    StartCaptures(s, f);
    assert LastN(s'.utter, 0) == [];
  }

  /** The third voiced frame in a row begins a capture with the preroll. */
  lemma {:induction false} StartCaptures(s: Live, f: Frame)
    requires Inv(s) && !s.capturing && !s.wasBusy && s.cooldown == 0 && !f.duringSpeech && f.index == |s.seen|
    requires f.rms >= LISTEN.startRms && s.listen.voicedRun + 1 >= 3
    ensures var kept := Kept(s.preroll, f);
            Capturing(kept, |kept|, s.seen + [f])
    ensures LastEnd(s) <= |s.seen| + 1 - 3
  {
    VoicedExtends(s, f);
    CleanGrows(s.preroll, s.seen, f);
    CapturingStarts(Kept(s.preroll, f), s.seen + [f]);
  }

  lemma {:induction false} ListenKeeps(s: Live, f: Frame, alive: set<nat>)
    requires Inv(s) && !s.capturing && !s.wasBusy && s.cooldown == 0 && !f.duringSpeech && f.index == |s.seen|
    requires alive <= s.alive && (f.rms >= LISTEN.startRms ==> alive == {})
    ensures Inv(Listen(s.(alive := alive, seen := s.seen + [f]), f))
  {
    var s' := Listen(s.(alive := alive, seen := s.seen + [f]), f);
    if f.rms < LISTEN.startRms {
      ListenQuiet(s, s', f);
    } else if s.listen.voicedRun + 1 < 3 {
      ListenVoiced(s, s', f);
    } else {
      ListenStarts(s, s', f);
    }
  }

  lemma {:induction false} VoicedExtends(s: Live, f: Frame)
    requires Inv(s) && !s.capturing && !s.wasBusy
    requires f.rms >= LISTEN.startRms
    ensures var n := s.listen.voicedRun + 1;
            && n <= |Kept(s.preroll, f)| <= PREROLL_FRAMES
            && LastN(Kept(s.preroll, f), n) == LastN(s.seen + [f], n)
            && Voiced(LastN(Kept(s.preroll, f), n))
  {
    LastNOfKept(s.preroll, f, s.listen.voicedRun);
    LastNOfAppend(s.seen, f, s.listen.voicedRun);
  }

  function NextFrame(s: Live, rms: real, w: World): Frame {
    Frame(|s.seen|, rms, !s.capturing && Busy(s, w))
  }

  lemma {:induction false} StepShape(s: Live, rms: real, w: World)
    ensures var f := NextFrame(s, rms, w);
            var s1 := s.(alive := s.alive - w.ended, seen := s.seen + [f]);
            var s' := Step(HalfDuplex, s, rms, w);
            && (f.duringSpeech ==> s' == s1.(preroll := Kept(s.preroll, f), wasBusy := true))
            && (!f.duringSpeech && s.wasBusy ==> s' == AfterSpeech(HalfDuplex, s1).(cooldown := 7))
            && (!f.duringSpeech && !s.wasBusy && s.cooldown > 0 ==> s' == s1.(cooldown := s.cooldown - 1))
            && (!f.duringSpeech && !s.wasBusy && s.cooldown == 0 && s.capturing ==> s' == Capture(s1, f))
            && (!f.duringSpeech && !s.wasBusy && s.cooldown == 0 && !s.capturing ==> s' == Listen(s1, f))
  {
  }

  lemma {:induction false} BranchesKeep(s: Live, s': Live, f: Frame, alive: set<nat>)
    requires Inv(s) && f.index == |s.seen| && alive <= s.alive
    requires s.capturing ==> !f.duringSpeech
    requires !f.duringSpeech && !s.capturing ==> alive == {}
    requires var s1 := s.(alive := alive, seen := s.seen + [f]);
            && (f.duringSpeech ==> s' == s1.(preroll := Kept(s.preroll, f), wasBusy := true))
            && (!f.duringSpeech && s.wasBusy ==> s' == AfterSpeech(HalfDuplex, s1).(cooldown := 7))
            && (!f.duringSpeech && !s.wasBusy && s.cooldown > 0 ==> s' == s1.(cooldown := s.cooldown - 1))
            && (!f.duringSpeech && !s.wasBusy && s.cooldown == 0 && s.capturing ==> s' == Capture(s1, f))
            && (!f.duringSpeech && !s.wasBusy && s.cooldown == 0 && !s.capturing ==> s' == Listen(s1, f))
    ensures Inv(s')
  {
    if f.duringSpeech {
      SpeakingKeeps(s, s', f);
    } else if s.wasBusy || s.cooldown > 0 {
      WaitingKeeps(s, s', f);
    } else if s.capturing {
      CaptureKeeps(s, f, alive);
    } else {
      ListenKeeps(s, f, alive);
    }
  }

  /** Every frame of a half-duplex run keeps the invariant. */
  lemma {:induction false} StepKeepsInv(s: Live, rms: real, w: World)
    requires Inv(s)
    ensures Inv(Step(HalfDuplex, s, rms, w))
  {
    StepShape(s, rms, w);
    assert forall id :: id in s.alive ==> s.worker == Some(id);
    BranchesKeep(s, Step(HalfDuplex, s, rms, w), NextFrame(s, rms, w), s.alive - w.ended);
  }

  lemma {:induction false} RunKeepsInv(s: Live, inputs: seq<(real, World)>)
    requires Inv(s)
    ensures Inv(Run(HalfDuplex, s, inputs))
    decreases |inputs|
  {
    if inputs != [] {
      var s' := Step(HalfDuplex, s, inputs[0].0, inputs[0].1);
      StepKeepsInv(s, inputs[0].0, inputs[0].1);
      RunKeepsInv(s', inputs[1..]);
      assert Run(HalfDuplex, s, inputs) == Run(HalfDuplex, s', inputs[1..]);
    }
  }

  /**
   In every half-duplex run: capturing and the segmenter agree, at most one worker runs and
   none while capturing, and every utterance handed over is at most eight preroll frames
   ending in the voiced start, then every frame through the closing silence, none of them
   taken while the assistant spoke or in the eight frames after; the captured parts follow
   each other without overlap.
   */
  lemma {:induction false} HalfDuplexRun(inputs: seq<(real, World)>)
    ensures var s := Run(HalfDuplex, READY, inputs);
            && (s.capturing <==> s.listen.speaking)
            && (s.capturing ==> s.cooldown == 0 && s.alive == {})
            && |s.preroll| <= PREROLL_FRAMES
            && |s.alive| <= 1
            && TurnsOk(s)
  {
    RunKeepsInv(READY, inputs);
    var s := Run(HalfDuplex, READY, inputs);
    if s.worker.Some? {
      assert s.alive <= {s.worker.value};
      SubsetSize(s.alive, s.worker.value);
    } else {
      assert s.alive == {};
    }
  }

  /** Audio starts only while a turn worker runs; what already plays may go on. */
  ghost predicate PlayerFollows(s: Live, inputs: seq<(real, World)>, playing: bool)
    decreases |inputs|
  {
    inputs != [] ==>
      && (inputs[0].1.playing ==> playing || s.alive != {})
      && PlayerFollows(Step(HalfDuplex, s, inputs[0].0, inputs[0].1), inputs[1..], inputs[0].1.playing)
  }

  /** Then nothing plays, and no worker runs, at any frame of a capture: ignoring both there never matters. */
  lemma {:induction false} CapturesInSilence(inputs: seq<(real, World)>, i: nat)
    requires PlayerFollows(READY, inputs, false) && i < |inputs|
    ensures var s := Run(HalfDuplex, READY, inputs[..i]);
            s.capturing ==> !Busy(s, inputs[i].1)
  {
    CapturesInSilenceFrom(READY, inputs, false, i);
  }

  lemma {:induction false} CapturesInSilenceFrom(s: Live, inputs: seq<(real, World)>, playing: bool, i: nat)
    requires Inv(s) && (s.capturing ==> !playing)
    requires PlayerFollows(s, inputs, playing) && i < |inputs|
    ensures var s' := Run(HalfDuplex, s, inputs[..i]);
            s'.capturing ==> !Busy(s', inputs[i].1)
    decreases |inputs|
  {
    if i > 0 {
      var s1 := Step(HalfDuplex, s, inputs[0].0, inputs[0].1);
      StepShape(s, inputs[0].0, inputs[0].1);
      StepKeepsInv(s, inputs[0].0, inputs[0].1);
      CapturesInSilenceFrom(s1, inputs[1..], inputs[0].1.playing, i - 1);
      assert inputs[..i][1..] == inputs[1..][..i - 1];
    }
  }

  lemma {:induction false} SubsetSize(a: set<nat>, x: nat)
    requires a <= {x}
    ensures |a| <= 1
  {
    assert a == {} || a == {x};
  }

  // ---- when an utterance is handed over

  /** How the user's own frames are segmented. */
  function Hearing(levels: seq<real>): Vad.Segmentation {
    Vad.Segments(Vad.Tuning(500.0, 350.0, 3, 25), levels)
  }

  function HeardSignal(levels: seq<real>): Vad.Signal
    requires levels != []
  {
    Vad.SignalOf(Vad.Tuning(500.0, 350.0, 3, 25), levels)
  }

  function Levels(inputs: seq<(real, World)>): (levels: seq<real>)
    ensures |levels| == |inputs|
    ensures forall i :: 0 <= i < |levels| ==> levels[i] == inputs[i].0
  {
    seq(|inputs|, i requires 0 <= i < |inputs| => inputs[i].0)
  }

  /** At every frame the loop pays heed: it is capturing, or no worker runs and nothing plays. */
  ghost predicate Heeded(mode: Mode, s: Live, inputs: seq<(real, World)>)
    decreases |inputs|
  {
    inputs == [] ||
    ((s.capturing || !Busy(s, inputs[0].1)) && Heeded(mode, Step(mode, s, inputs[0].0, inputs[0].1), inputs[1..]))
  }

  /** The loop has listened to the levels h since it was last cleared: it captures exactly while a segment is open. */
  ghost predicate Listening(s: Live, h: seq<real>) {
    && s.cooldown == 0 && !s.wasBusy && |h| <= |s.seen|
    && s.listen == Vad.StateAfter(LISTEN, h)
    && (s.capturing <==> Hearing(h).open)
    && (s.capturing ==> s.lead <= |s.utter| && |s.utter| - s.lead == |h| - Hearing(h).since)
  }

  lemma {:induction false} SegmentsGrow(h: seq<real>, rms: real)
    ensures var g, g', signal := Hearing(h), Hearing(h + [rms]), HeardSignal(h + [rms]);
            && (signal == Vad.Start <==> !g.open && g'.open)
            && (signal == Vad.End <==> g.open && !g'.open)
            && g'.since == (if signal == Vad.Quiet then g.since else |h| + 1)
            && Vad.StateAfter(LISTEN, h).speaking == g.open
            && (signal, Vad.StateAfter(LISTEN, h + [rms])) == Vad.Push(LISTEN, Vad.StateAfter(LISTEN, h), rms)
  {
    assert (h + [rms])[..|h|] == h;
    Vad.Refines(LISTEN, h);
    Vad.Refines(LISTEN, h + [rms]);
  }

  /** The turn that ends with the frame: its captured part begins with the three voiced frames that opened the segment. */
  predicate TurnOf(t: Turn, end: nat, heard: nat, since: nat) {
    && t.end == end && t.lead <= |t.frames|
    && Begin(t) == end + 1 - heard + since - 3
  }

  /** One frame that is heeded: an utterance is handed over exactly when a segment closes. */
  lemma {:induction false} ListeningStep(mode: Mode, s: Live, h: seq<real>, rms: real, w: World)
    requires Listening(s, h) && (s.capturing || !Busy(s, w))
    ensures var s', h' := Step(mode, s, rms, w), h + [rms];
            && Listening(s', h')
            && s'.seen == s.seen + [Frame(|s.seen|, rms, false)]
            && (HeardSignal(h') != Vad.End ==> s'.turns == s.turns && s'.worker == s.worker && s'.alive == s.alive - w.ended)
            && (HeardSignal(h') == Vad.End ==>
                  && |s'.turns| == |s.turns| + 1 && s'.turns[..|s.turns|] == s.turns
                  && TurnOf(s'.turns[|s.turns|], |s.seen|, |h'|, Hearing(h).since)
                  && s'.worker == Some(|s.turns|) && s'.alive == (s.alive - w.ended) + {|s.turns|})
  {
    SegmentsGrow(h, rms);
  }

  lemma {:induction false} EndsCounted(h: seq<real>, rms: real)
    ensures Vad.Count(LISTEN, h + [rms], Vad.End) == Vad.Count(LISTEN, h, Vad.End) + (if HeardSignal(h + [rms]) == Vad.End then 1 else 0)
  {
    assert (h + [rms])[..|h|] == h;
  }

  lemma {:induction false} LevelsShift(h: seq<real>, inputs: seq<(real, World)>)
    requires inputs != []
    ensures h + [inputs[0].0] + Levels(inputs[1..]) == h + Levels(inputs)
  {
  }

  lemma {:induction false} ListeningRun(mode: Mode, s: Live, h: seq<real>, inputs: seq<(real, World)>)
    requires Listening(s, h) && Heeded(mode, s, inputs)
    ensures var s', h' := Run(mode, s, inputs), h + Levels(inputs);
            && Listening(s', h') && s.turns <= s'.turns
            && |s'.seen| == |s.seen| + |inputs|
            && |s'.turns| - |s.turns| == Vad.Count(LISTEN, h', Vad.End) - Vad.Count(LISTEN, h, Vad.End)
    decreases |inputs|
  {
    if inputs == [] {
      assert h + Levels(inputs) == h;
    } else {
      var rms, w := inputs[0].0, inputs[0].1;
      var s1, h1 := Step(mode, s, rms, w), h + [rms];
      ListeningStep(mode, s, h, rms, w);
      ListeningRun(mode, s1, h1, inputs[1..]);
      EndsCounted(h, rms);
      LevelsShift(h, inputs);
    }
  }

  lemma {:induction false} HeededPrefix(mode: Mode, s: Live, inputs: seq<(real, World)>, i: nat)
    requires i < |inputs| && Heeded(mode, s, inputs)
    ensures Heeded(mode, s, inputs[..i])
    ensures var s' := Run(mode, s, inputs[..i]); s'.capturing || !Busy(s', inputs[i].1)
    decreases i
  {
    if i > 0 {
      HeededPrefix(mode, Step(mode, s, inputs[0].0, inputs[0].1), inputs[1..], i - 1);
      assert inputs[..i][1..] == inputs[1..][..i - 1];
    }
  }

  /**
   After a start of the loop, or once it is cleared, and as long as it pays heed, the loop
   captures exactly while the segmenter has a segment open; at each frame that closes one,
   and at no other, one utterance is handed over, from the three voiced frames that opened
   the segment to this frame, and a worker starts on it.
   */
  lemma {:induction false} EveryUtteranceIsHandedOver(mode: Mode, s: Live, inputs: seq<(real, World)>, i: nat)
    requires Listening(s, []) && Heeded(mode, s, inputs) && i < |inputs|
    ensures var before, after := Run(mode, s, inputs[..i]), Run(mode, s, inputs[..i + 1]);
            var h := Levels(inputs)[..i + 1];
            && (after.capturing <==> Hearing(h).open)
            && (HeardSignal(h) != Vad.End ==> after.turns == before.turns)
            && (HeardSignal(h) == Vad.End ==>
                  && |after.turns| == |before.turns| + 1 && after.turns[..|before.turns|] == before.turns
                  && TurnOf(after.turns[|before.turns|], |s.seen| + i, i + 1, Hearing(h[..i]).since)
                  && after.worker == Some(|before.turns|))
  {
    HeededPrefix(mode, s, inputs, i);
    ListeningRun(mode, s, [], inputs[..i]);
    var h := Levels(inputs)[..i];
    assert [] + Levels(inputs[..i]) == h;
    ListeningStep(mode, Run(mode, s, inputs[..i]), h, inputs[i].0, inputs[i].1);
    RunOneMore(mode, s, inputs, i);
    assert h + [inputs[i].0] == Levels(inputs)[..i + 1];
    assert Levels(inputs)[..i + 1][..i] == h;
  }

  /** The loop starts out listening. */
  lemma {:induction false} ReadyListens()
    ensures Listening(READY, [])
  {
  }

  /** In half-duplex mode a frame during speech is never captured, and clears what was heard before. */
  lemma {:induction false} SpeechIsIgnored(s: Live, rms: real, w: World)
    requires !s.capturing && Busy(s, w)
    ensures var s' := Step(HalfDuplex, s, rms, w);
            !s'.capturing && s'.wasBusy && s'.turns == s.turns && s'.worker == s.worker
  {
  }

  /** The eight frames after speech are passed over; then the loop listens afresh. */
  lemma {:induction false} EchoIsPassedOver(s: Live, inputs: seq<(real, World)>)
    requires !s.capturing && s.wasBusy && |inputs| == 8 && Heeded(HalfDuplex, s, inputs)
    ensures var s' := Run(HalfDuplex, s, inputs);
            Listening(s', []) && s'.preroll == [] && s'.turns == s.turns && s'.worker == s.worker
  {
    var s1 := Step(HalfDuplex, s, inputs[0].0, inputs[0].1);
    assert s1.cooldown == 7;
    CoolsDown(s1, inputs[1..]);
  }

  lemma {:induction false} CoolsDown(s: Live, inputs: seq<(real, World)>)
    requires !s.capturing && !s.wasBusy && s.cooldown == |inputs| && s.listen == Vad.RESET && s.preroll == []
    requires Heeded(HalfDuplex, s, inputs)
    ensures var s' := Run(HalfDuplex, s, inputs);
            Listening(s', []) && s'.preroll == [] && s'.turns == s.turns && s'.worker == s.worker
    decreases |inputs|
  {
    if inputs != [] {
      CoolsDown(Step(HalfDuplex, s, inputs[0].0, inputs[0].1), inputs[1..]);
    }
  }

  /** In interrupting mode there is no echo: the first frame after speech is already listened to. */
  lemma {:induction false} HeadphonesListenAtOnce(bargeRms: real, s: Live, rms: real, w: World)
    requires !s.capturing && s.wasBusy && s.cooldown == 0 && !Busy(s, w)
    ensures Listening(Step(BargeIn(bargeRms), s, rms, w), [rms])
    ensures Step(BargeIn(bargeRms), s, rms, w).barge == Vad.RESET
  {
    assert [rms][..0] == [];
    SegmentsGrow([], rms);
    assert [] + [rms] == [rms];
  }

  /** The most recent frames, eight of them as soon as there are as many. */
  function Recent(seen: seq<Frame>, n: nat): seq<Frame>
    requires n <= |seen|
  {
    LastN(seen, if n < 8 then n else 8)
  }

  lemma {:induction false} RecentGrows(seen: seq<Frame>, n: nat, f: Frame)
    requires n <= |seen|
    ensures Kept(Recent(seen, n), f) == Recent(seen + [f], n + 1)
  {
  }

  /**
   Until the first utterance after a clearing, the preroll is the frames since, the last
   eight at most, and the utterance begins with exactly these.
   */
  lemma {:induction false} UtteranceBeginsWithPreroll(mode: Mode, s: Live, h: seq<real>, rms: real, w: World)
    requires Listening(s, h) && !Busy(s, w) && !s.capturing && s.preroll == Recent(s.seen, |h|)
    ensures var s' := Step(mode, s, rms, w);
            && s'.preroll == Recent(s'.seen, |h| + 1)
            && (s'.capturing ==> s'.utter == s'.preroll && s'.lead == |s'.preroll|)
  {
    RecentGrows(s.seen, |h|, Frame(|s.seen|, rms, false));
    SegmentsGrow(h, rms);
  }

  /** Talking over the assistant: a capture begins exactly when the stricter segmenter signals a start. */
  lemma {:induction false} InterruptsExactly(bargeRms: real, s: Live, h: seq<real>, rms: real, w: World)
    requires !s.capturing && Busy(s, w)
    requires s.barge == Vad.StateAfter(Vad.Tuning(bargeRms, 350.0, 4, 25), h)
    ensures var s', stricter := Step(BargeIn(bargeRms), s, rms, w), Vad.Tuning(bargeRms, 350.0, 4, 25);
            && (s'.capturing <==> Vad.SignalOf(stricter, h + [rms]) == Vad.Start)
            && s'.barge == Vad.StateAfter(stricter, h + [rms])
            && s'.turns == s.turns
            && (!s'.capturing ==> s'.wasBusy && s'.preroll == Kept(s.preroll, Frame(|s.seen|, rms, true)))
  {
    assert (h + [rms])[..|h|] == h;
  }

  // ---- interruptions

  /** After the levels heard, none of the frames closes a segment. */
  ghost predicate NoEnd(heard: seq<real>, inputs: seq<(real, World)>)
    decreases |inputs|
  {
    inputs == [] ||
    (Vad.SignalOf(LISTEN, heard + [inputs[0].0]) != Vad.End && NoEnd(heard + [inputs[0].0], inputs[1..]))
  }

  lemma {:induction false} BargeInHasNoCooldown(bargeRms: real, s: Live, inputs: seq<(real, World)>)
    requires s.cooldown == 0
    ensures Run(BargeIn(bargeRms), s, inputs).cooldown == 0
    decreases |inputs|
  {
    if inputs != [] {
      BargeInHasNoCooldown(bargeRms, Step(BargeIn(bargeRms), s, inputs[0].0, inputs[0].1), inputs[1..]);
    }
  }

  lemma {:induction false} TurnsGrow(mode: Mode, s: Live, inputs: seq<(real, World)>)
    ensures s.turns <= Run(mode, s, inputs).turns
    decreases |inputs|
  {
    if inputs != [] {
      var s' := Step(mode, s, inputs[0].0, inputs[0].1);
      assert s.turns <= s'.turns;
      TurnsGrow(mode, s', inputs[1..]);
    }
  }

  /** A capture under way, whose segmenter has heard the given levels since it was cleared. */
  ghost predicate Heard(s: Live, heard: seq<real>) {
    && s.capturing && s.cooldown == 0
    && s.listen == Vad.StateAfter(LISTEN, heard)
    && (s.wasBusy ==> heard == [])
  }

  lemma {:induction false} CaptureStep(bargeRms: real, s: Live, heard: seq<real>, rms: real, w: World)
    requires Heard(s, heard)
    ensures var s', h := Step(BargeIn(bargeRms), s, rms, w), heard + [rms];
            && s'.listen == Vad.StateAfter(LISTEN, h)
            && (Vad.SignalOf(LISTEN, h) != Vad.End ==>
                  Heard(s', h) && s'.turns == s.turns && s'.lead == s.lead && s'.utter == s.utter + [Frame(|s.seen|, rms, false)])
            && s'.seen == s.seen + [Frame(|s.seen|, rms, false)]
            && (Vad.SignalOf(LISTEN, h) == Vad.End ==>
                  s'.turns == s.turns + [Turn(s.utter + [Frame(|s.seen|, rms, false)], s.lead, |s.seen|)])
  {
    assert (heard + [rms])[..|heard|] == heard;
  }

  /** The turn is what s has captured so far and every later frame to its end. */
  ghost predicate Continues(t: Turn, s: Live, seen: seq<Frame>) {
    && |s.seen| <= t.end < |seen| && t.lead == s.lead
    && t.frames == s.utter + seen[|s.seen|..t.end + 1]
  }

  lemma {:induction false} CaptureUntilEnd(bargeRms: real, s: Live, heard: seq<real>, inputs: seq<(real, World)>)
    requires Heard(s, heard)
    ensures var s' := Run(BargeIn(bargeRms), s, inputs);
            && (s'.turns == s.turns <==> NoEnd(heard, inputs))
            && (NoEnd(heard, inputs) ==> s'.capturing && |s'.utter| == |s.utter| + |inputs|)
            && s.seen <= s'.seen
            && (NoEnd(heard, inputs) ==> s'.utter == s.utter + s'.seen[|s.seen|..])
            && (!NoEnd(heard, inputs) ==> |s'.turns| > |s.turns| && Continues(s'.turns[|s.turns|], s, s'.seen))
    decreases |inputs|
  {
    if inputs != [] {
      var s1, h := Step(BargeIn(bargeRms), s, inputs[0].0, inputs[0].1), heard + [inputs[0].0];
      CaptureStep(bargeRms, s, heard, inputs[0].0, inputs[0].1);
      var s', f := Run(BargeIn(bargeRms), s1, inputs[1..]), Frame(|s.seen|, inputs[0].0, false);
      if Vad.SignalOf(LISTEN, h) == Vad.End {
        TurnsGrow(BargeIn(bargeRms), s1, inputs[1..]);
        SeenGrows(BargeIn(bargeRms), s1, inputs[1..]);
        assert s'.turns[|s.turns|] == s1.turns[|s.turns|];
        assert s'.seen[|s.seen|..|s.seen| + 1] == [f];
      } else {
        CaptureUntilEnd(bargeRms, s1, h, inputs[1..]);
        ContinuesFrom(s, s1, f, s'.seen);
      }
    }
  }

  lemma {:induction false} SeenGrows(mode: Mode, s: Live, inputs: seq<(real, World)>)
    ensures s.seen <= Run(mode, s, inputs).seen
    decreases |inputs|
  {
    if inputs != [] {
      var s' := Step(mode, s, inputs[0].0, inputs[0].1);
      assert s.seen <= s'.seen;
      SeenGrows(mode, s', inputs[1..]);
    }
  }

  /** What continues a capture with one more frame continues the capture. */
  lemma {:induction false} ContinuesFrom(s: Live, s1: Live, f: Frame, seen: seq<Frame>)
    requires s1.seen == s.seen + [f] && s1.utter == s.utter + [f] && s1.lead == s.lead && s1.seen <= seen
    ensures s1.utter + seen[|s1.seen|..] == s.utter + seen[|s.seen|..]
    ensures forall t: Turn :: Continues(t, s1, seen) ==> Continues(t, s, seen)
  {
    var n := |s.seen|;
    assert seen[n] == s1.seen[n] == f;
    assert seen[n..] == [f] + seen[n + 1..];
    forall t: Turn | Continues(t, s1, seen) ensures Continues(t, s, seen) {
      assert seen[n..t.end + 1] == [f] + seen[n + 1..t.end + 1];
    }
  }

  /** The frame makes an interruption: it falls in the assistant's speech and begins a capture. */
  predicate Interrupts(bargeRms: real, s: Live, rms: real, w: World) {
    NextFrame(s, rms, w).duringSpeech && Step(BargeIn(bargeRms), s, rms, w).capturing
  }

  /**
   What interrupts, in any run: its preroll and itself begin the utterance, and the
   utterance is handed over exactly when the segmenter, starting from nothing at the next
   frame, closes a segment of its own. The voiced frames that interrupted do not count.
   */
  lemma {:induction false} InterruptionEnds(bargeRms: real, before: seq<(real, World)>, rms: real, w: World, after: seq<(real, World)>)
    requires Interrupts(bargeRms, Run(BargeIn(bargeRms), READY, before), rms, w)
    ensures var s := Run(BargeIn(bargeRms), READY, before);
            var s1 := Step(BargeIn(bargeRms), s, rms, w);
            var s' := Run(BargeIn(bargeRms), s1, after);
            && s1.utter == s.preroll + [NextFrame(s, rms, w)] && s1.preroll == []
            && (s'.turns == s1.turns <==> NoEnd([], after))
            && (NoEnd([], after) ==> s'.capturing && |s'.utter| == |s1.utter| + |after|)
            && (!NoEnd([], after) ==> |s'.turns| > |s1.turns| && Continues(s'.turns[|s1.turns|], s1, s'.seen))
  {
    BargeInHasNoCooldown(bargeRms, READY, before);
    var s := Run(BargeIn(bargeRms), READY, before);
    CaptureUntilEnd(bargeRms, Step(BargeIn(bargeRms), s, rms, w), [], after);
  }

  /** So silence alone never ends an interruption, however long it lasts. */
  lemma {:induction false} SilenceEndsNoInterruption(heard: seq<real>, inputs: seq<(real, World)>)
    requires forall i :: 0 <= i < |heard| ==> heard[i] < LISTEN.startRms
    requires forall i :: 0 <= i < |inputs| ==> inputs[i].0 < LISTEN.startRms
    ensures NoEnd(heard, inputs)
    decreases |inputs|
  {
    if inputs != [] {
      var h := heard + [inputs[0].0];
      NothingVoiced(h);
      assert h[..|heard|] == heard;
      NothingVoiced(heard);
      SilenceEndsNoInterruption(h, inputs[1..]);
    }
  }

  lemma {:induction false} NothingVoiced(heard: seq<real>)
    requires forall i :: 0 <= i < |heard| ==> heard[i] < LISTEN.startRms
    ensures Vad.StateAfter(LISTEN, heard) == Vad.RESET
  {
    if heard != [] {
      NothingVoiced(heard[..|heard| - 1]);
    }
  }

  /** A loud frame while audio plays. */
  const LOUD: (real, World) := (2000.0, World({}, true))

  lemma {:induction false} FourLoudFramesInterrupt()
    ensures Interrupts(1500.0, Run(BargeIn(1500.0), READY, [LOUD, LOUD, LOUD]), LOUD.0, LOUD.1)
  {
    var mode := BargeIn(1500.0);
    var s1 := Step(mode, READY, LOUD.0, LOUD.1);
    var s2 := Step(mode, s1, LOUD.0, LOUD.1);
    var s3 := Step(mode, s2, LOUD.0, LOUD.1);
    assert s1.barge == Vad.State(false, 1, 0) && !s1.capturing;
    assert s2.barge == Vad.State(false, 2, 0) && !s2.capturing;
    assert s3.barge == Vad.State(false, 3, 0) && !s3.capturing;
    RunThree(mode, READY, LOUD, LOUD, LOUD);
  }

  lemma {:induction false} RunThree(mode: Mode, s: Live, a: (real, World), b: (real, World), c: (real, World))
    ensures Run(mode, s, [a, b, c]) == Step(mode, Step(mode, Step(mode, s, a.0, a.1), b.0, b.1), c.0, c.1)
  {
    var s1 := Step(mode, s, a.0, a.1);
    var s2 := Step(mode, s1, b.0, b.1);
    assert [a, b, c][1..] == [b, c] && [b, c][1..] == [c] && [c][1..] == [];
    assert Run(mode, s1, [b, c]) == Run(mode, s2, [c]);
  }

  /** Whoever says four loud frames over the assistant and falls silent is captured for as long as the silence lasts. */
  lemma {:induction false} BriefInterruptionStays(silence: seq<(real, World)>)
    requires forall i :: 0 <= i < |silence| ==> silence[i].0 < LISTEN.startRms
    ensures var mode := BargeIn(1500.0);
            var s1 := Step(mode, Run(mode, READY, [LOUD, LOUD, LOUD]), LOUD.0, LOUD.1);
            var s' := Run(mode, s1, silence);
            s'.capturing && s'.turns == s1.turns
  {
    FourLoudFramesInterrupt();
    SilenceEndsNoInterruption([], silence);
    InterruptionEnds(1500.0, [LOUD, LOUD, LOUD], LOUD.0, LOUD.1, silence);
  }

  // ---- the loop itself

  lemma {:induction false} RunOneMore(mode: Mode, s: Live, inputs: seq<(real, World)>, i: nat)
    requires i < |inputs|
    ensures Run(mode, s, inputs[..i + 1]) == Step(mode, Run(mode, s, inputs[..i]), inputs[i].0, inputs[i].1)
    decreases i
  {
    var s' := Step(mode, s, inputs[0].0, inputs[0].1);
    if i == 0 {
      assert inputs[..1][1..] == [];
    } else {
      assert inputs[..i + 1][1..] == inputs[1..][..i] && inputs[..i][1..] == inputs[1..][..i - 1];
      RunOneMore(mode, s', inputs[1..], i - 1);
    }
  }

  class Session {
    const mode: Mode
    const listenVad: Vad.VadSegmenter
    const bargeVad: Vad.VadSegmenter
    var preroll: seq<Frame>
    var utter: seq<Frame>
    var lead: nat
    var capturing: bool
    var wasBusy: bool
    var cooldown: nat
    var worker: Option<nat>
    var alive: set<nat>
    var seen: seq<Frame>
    var turns: seq<Turn>

    ghost predicate Valid()
      reads this, listenVad, bargeVad
    {
      && listenVad != bargeVad
      && listenVad.Valid() && listenVad.tuning == LISTEN
      && bargeVad.Valid() && (mode.BargeIn? ==> bargeVad.tuning == BargeTuning(mode.bargeRms))
    }

    ghost function State(): Live
      requires Valid()
      reads this, listenVad, bargeVad
    {
      Live(preroll, utter, lead, capturing, wasBusy, cooldown, worker, alive,
           listenVad.Current(), bargeVad.Current(), seen, turns)
    }

    constructor (mode: Mode)
      ensures Valid() && State() == READY && this.mode == mode
      ensures fresh(listenVad) && fresh(bargeVad)
    {
      this.mode := mode;
      listenVad := new Vad.VadSegmenter(LISTEN);
      bargeVad := new Vad.VadSegmenter(BargeTuning(if mode.BargeIn? then mode.bargeRms else 1500.0));
      preroll, utter, lead, capturing, wasBusy, cooldown := [], [], 0, false, false, 0;
      worker, alive, seen, turns := None, {}, [], [];
    }

    /** The body of the loop, for one frame. */
    method Process(rms: real, world: World)
      requires Valid()
      modifies this, listenVad, bargeVad
      ensures Valid() && State() == Step(mode, old(State()), rms, world)
    {
      alive := alive - world.ended;
      var speaking := !capturing && ((worker.Some? && worker.value in alive) || world.playing);
      var frame := Frame(|seen|, rms, speaking);
      seen := seen + [frame];
      if speaking {
        Overhear(frame);
        return;
      }
      if wasBusy {
        Resume();
      }
      if cooldown > 0 {
        cooldown := cooldown - 1;
      } else if capturing {
        Record(frame);
      } else {
        Await(frame);
      }
    }

    /** A frame taken while the assistant speaks. */
    method Overhear(frame: Frame)
      requires Valid()
      modifies this, listenVad, bargeVad
      ensures Valid() && State() == WhileSpeaking(mode, old(State()), frame)
    {
      if mode.BargeIn? {
        var signal := bargeVad.PushRms(frame.rms);
        if signal == Vad.Start {
          Interrupt(frame);
          return;
        }
      }
      KeepPreroll(frame);
      wasBusy := true;
    }

    method Interrupt(frame: Frame)
      requires Valid()
      modifies this, listenVad
      ensures Valid() && State() == Interrupted(old(State()), frame)
    {
      listenVad.Reset();
      capturing := true;
      utter, lead := preroll + [frame], |preroll| + 1;
      preroll := [];
    }

    method KeepPreroll(frame: Frame)
      modifies this`preroll
      ensures preroll == Kept(old(preroll), frame)
    {
      preroll := preroll + [frame];
      if |preroll| > PREROLL_FRAMES {
        preroll := preroll[1..];
      }
    }

    /** The first frame after the assistant spoke. */
    method Resume()
      requires Valid()
      modifies this, listenVad, bargeVad
      ensures Valid() && State() == AfterSpeech(mode, old(State()))
    {
      listenVad.Reset();
      bargeVad.Reset();
      wasBusy := false;
      if mode.HalfDuplex? {
        preroll := [];
        cooldown := COOLDOWN_FRAMES;
      }
    }

    /** A frame of the utterance; at the closing silence it is handed to a new worker. */
    method Record(frame: Frame)
      requires Valid()
      modifies this, listenVad
      ensures Valid() && State() == Capture(old(State()), frame)
    {
      utter := utter + [frame];
      var signal := listenVad.PushRms(frame.rms);
      if signal == Vad.End {
        HandOver(frame.index);
      }
    }

    method HandOver(end: nat)
      requires Valid()
      modifies this
      ensures Valid() && State() == HandedOver(old(State()), end)
    {
      var id := |turns|;
      capturing := false;
      worker := Some(id);
      alive := alive + {id};
      turns := turns + [Turn(utter, lead, end)];
      utter := [];
    }

    /** A frame before anyone speaks. */
    method Await(frame: Frame)
      requires Valid()
      modifies this, listenVad
      ensures Valid() && State() == Listen(old(State()), frame)
    {
      KeepPreroll(frame);
      var signal := listenVad.PushRms(frame.rms);
      if signal == Vad.Start {
        capturing := true;
        utter, lead := preroll, |preroll|;
      }
    }
  }

  /** The loop over all frames. */
  method ListenLive(mode: Mode, inputs: seq<(real, World)>) returns (turns: seq<Turn>)
    ensures turns == Run(mode, READY, inputs).turns
  {
    var session := new Session(mode);
    assert inputs[..0] == [];
    for i := 0 to |inputs|
      invariant fresh(session) && fresh(session.listenVad) && fresh(session.bargeVad)
      invariant session.Valid() && session.mode == mode
      invariant session.State() == Run(mode, READY, inputs[..i])
    {
      RunOneMore(mode, READY, inputs, i);
      session.Process(inputs[i].0, inputs[i].1);
    }
    assert inputs[..|inputs|] == inputs;
    turns := session.turns;
  }
}
