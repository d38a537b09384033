/**
 The login step engine and the frame-checked fill it relies on
 (browser-lane-app/Sources/BrowserLaneApp: BrowserLaneLoginRunner.swift,
 BrowserViewController.swift). The page is an adversary: which frames are live, what each
 script answers and how long everything takes are arbitrary.
 */
module LoginRunner {
  import opened Wrappers
  import opened LoginRecipe
  import opened LoginHosts

  type Delay = r: real | r >= 0.0

  /** What a script evaluation gives back: a string, another value, or an error. */
  datatype Reply = Answer(text: string) | NotAString | Failed

  /** The page, indexed by how many evaluations have been made so far. */
  datatype Page = Page(
    frames: nat -> seq<Frame>,
    reply: nat -> Reply,
    latency: nat -> Delay,
    slip: nat -> Delay)

  datatype Script =
    | ClickJS(selector: string)
    | SubmitJS(selector: string)
    | ExistsJS(selector: string)
    | ClickTextJS(selector: string, text: string)
    | FillJS(selector: string, value: FillValue, text: string)

  /** Where a script runs; MainFrame is the fallback when no frame has been reported. */
  datatype Target = MainFrame | InFrame(frame: Frame)

  datatype Event = Evaluated(step: nat, script: Script, target: Target, reply: Reply)

  datatype World = World(now: real, trace: seq<Event>)

  datatype Outcome =
    | Completed
    | Stalled(step: nat, selector: string)
    | OriginRefused(host: string)

  datatype Credentials = Credentials(username: string, secret: string, allowedHosts: seq<string>)

  // ---- the driver

  /** One evaluation; time passes until its callback. */
  function Evaluate(p: Page, w: World, step: nat, script: Script, target: Target): (w': World)
    ensures w'.now >= w.now
  {
    var k := |w.trace|;
    World(w.now + p.latency(k), w.trace + [Evaluated(step, script, target, p.reply(k))])
  }

  function LastReply(w: World): Reply
    requires w.trace != []
  {
    w.trace[|w.trace| - 1].reply
  }

  function SearchTargets(frames: seq<Frame>): (ts: seq<Target>)
    ensures ts != []
  {
    if frames == [] then [MainFrame]
    else seq(|frames|, i requires 0 <= i < |frames| => InFrame(frames[i]))
  }

  /** Evaluates in each target from i on until one answers something other than "missing". */
  function EvaluateFrom(p: Page, w: World, step: nat, script: Script, targets: seq<Target>, i: nat): (r: (string, World))
    requires i <= |targets|
    ensures r.1.now >= w.now
    decreases |targets| - i
  {
    if i == |targets| then ("missing", w)
    else
      var w' := Evaluate(p, w, step, script, targets[i]);
      match LastReply(w')
      case Answer(text) => if text != "missing" then (text, w') else EvaluateFrom(p, w', step, script, targets, i + 1)
      case _ => EvaluateFrom(p, w', step, script, targets, i + 1)
  }

  function RunInFrames(p: Page, w: World, step: nat, script: Script): (r: (string, World))
    ensures r.1.now >= w.now
  {
    EvaluateFrom(p, w, step, script, SearchTargets(p.frames(|w.trace|)), 0)
  }

  /** The first frame from i on in which the selector is there and visible. */
  function LocateFrame(p: Page, w: World, step: nat, selector: string, frames: seq<Frame>, i: nat): (r: (Option<Frame>, World))
    requires i <= |frames|
    ensures r.1.now >= w.now
    decreases |frames| - i
  {
    if i == |frames| then (None, w)
    else
      var w' := Evaluate(p, w, step, ExistsJS(selector), InFrame(frames[i]));
      if LastReply(w') == Answer("ok") then (Some(frames[i]), w')
      else LocateFrame(p, w', step, selector, frames, i + 1)
  }

  datatype Filling = Filled | NoFrame | Refused(host: string)

  function FillCredential(p: Page, w: World, step: nat, selector: string, value: FillValue, text: string, allowed: seq<string>)
    : (r: (Filling, World))
    ensures r.1.now >= w.now
  {
    var (frame, w') := LocateFrame(p, w, step, selector, p.frames(|w.trace|), 0);
    match frame
    case None => (NoFrame, w')
    case Some(f) =>
      if !HostIsAllowed(f.host, allowed) then (Refused(if f.host == "" then "unknown" else f.host), w')
      else (Filled, Evaluate(p, w', step, FillJS(selector, value, text), InFrame(f)))
  }

  // ---- the engine

  const RETRY: real := 0.25

  function Retries(w: World, deadline: real): nat {
    if w.now < deadline then ((deadline - w.now) * 4.0).Floor + 1 else 0
  }

  function Sleep(p: Page, w: World, seconds: real): World {
    World(w.now + seconds + p.slip(|w.trace|), w.trace)
  }

  datatype Polled = Polled(text: string, world: World, probes: nat)

  /** Repeats the script until it answers "ok" or the deadline has passed. */
  function Poll(p: Page, w: World, step: nat, script: Script, deadline: real): Polled
    decreases Retries(w, deadline)
  {
    var (text, w') := RunInFrames(p, w, step, script);
    if text == "ok" then Polled("ok", w', 1)
    else if w'.now >= deadline then Polled("timeout", w', 1)
    else
      var later := Sleep(p, w', RETRY);
      RetriesDecrease(w, w', later, deadline);
      var r := Poll(p, later, step, script, deadline);
      Polled(r.text, r.world, r.probes + 1)
  }

  lemma {:induction false} RetriesDecrease(w: World, w': World, later: World, deadline: real)
    requires w'.now >= w.now && later.now >= w'.now + RETRY && w'.now < deadline
    ensures Retries(later, deadline) < Retries(w, deadline)
  {
    var a, b := (deadline - w.now) * 4.0, (deadline - later.now) * 4.0;
    assert b <= a - 1.0;
    if later.now < deadline {
      assert b.Floor as real <= b;
      assert (a.Floor + 1) as real > a;
    }
  }

  function Selector(step: Step): string {
    match step
    case Click(s) => s
    case Submit(s) => s
    case WaitFor(s, _) => s
    case ClickText(s, t, _) => s + " \U{201c}" + t + "\U{201d}"
    case Fill(s, _) => s
    case Wait(t) => SecondsText(t) + "s pause"
  }

  function Resolve(c: Credentials, value: FillValue): string {
    match value
    case Username => c.username
    case Secret => c.secret
    case Literal(text) => text
  }

  /** What one step does, and the outcome it ends the run with, if it does. */
  function RunStep(p: Page, w: World, c: Credentials, step: Step, index: nat): (r: (Option<Outcome>, World)) {
    match step
    case Click(s) => var (text, w') := RunInFrames(p, w, index, ClickJS(s)); (Advance(text, step, index), w')
    case Submit(s) => var (text, w') := RunInFrames(p, w, index, SubmitJS(s)); (Advance(text, step, index), w')
    case Wait(t) => (None, Sleep(p, w, t))
    case WaitFor(s, t) =>
      var r := Poll(p, w, index, ExistsJS(s), w.now + t);
      (Advance(r.text, step, index), r.world)
    case ClickText(s, text, t) =>
      var r := Poll(p, w, index, ClickTextJS(s, text), w.now + t);
      (Advance(r.text, step, index), r.world)
    case Fill(s, value) =>
      if value.IsSecret() then
        var (filling, w') := FillCredential(p, w, index, s, value, Resolve(c, value), c.allowedHosts);
        match filling
        case Filled => (None, w')
        case NoFrame => (Some(Stalled(index + 1, s)), w')
        case Refused(host) => (Some(OriginRefused(host)), w')
      else
        var (text, w') := RunInFrames(p, w, index, FillJS(s, value, Resolve(c, value)));
        (Advance(text, step, index), w')
  }

  function Advance(text: string, step: Step, index: nat): Option<Outcome> {
    if text == "ok" then None else Some(Stalled(index + 1, Selector(step)))
  }

  /** The steps from index on, until one ends the run. */
  function RunFrom(p: Page, w: World, c: Credentials, steps: seq<Step>, index: nat): (Outcome, World)
    requires index <= |steps|
    decreases |steps| - index
  {
    if index == |steps| then (Completed, w)
    else
      var (stop, w') := RunStep(p, w, c, steps[index], index);
      if stop.Some? then (stop.value, w') else RunFrom(p, w', c, steps, index + 1)
  }

  function Run(p: Page, start: real, c: Credentials, steps: seq<Step>): (Outcome, World) {
    RunFrom(p, World(start, []), c, steps, 0)
  }

  // ---- what the trace shows

  /** `after` is `before` followed by evaluations made for the given step. */
  ghost predicate Grew(before: seq<Event>, after: seq<Event>, step: nat) {
    && before <= after
    && forall j :: |before| <= j < |after| ==> after[j].step == step
  }

  /** From position `from` on, only the given script was evaluated. */
  ghost predicate Only(trace: seq<Event>, from: nat, script: Script) {
    forall j :: from <= j < |trace| ==> trace[j].script == script
  }

  ghost predicate RepliedOk(trace: seq<Event>, from: nat) {
    exists j :: from <= j < |trace| && trace[j].reply == Answer("ok")
  }

  lemma {:induction false} EvaluateFromTrace(p: Page, w: World, step: nat, script: Script, targets: seq<Target>, i: nat)
    requires i <= |targets|
    ensures var (text, w') := EvaluateFrom(p, w, step, script, targets, i);
            && Grew(w.trace, w'.trace, step)
            && Only(w'.trace, |w.trace|, script)
            && (text == "ok" <==> RepliedOk(w'.trace, |w.trace|))
    decreases |targets| - i
  {
    if i < |targets| {
      var w1 := Evaluate(p, w, step, script, targets[i]);
      var e := w1.trace[|w.trace|];
      if e.reply.Answer? && e.reply.text != "missing" {
        assert e.reply == Answer("ok") ==> RepliedOk(w1.trace, |w.trace|);
      } else {
        EvaluateFromTrace(p, w1, step, script, targets, i + 1);
        var (text, w') := EvaluateFrom(p, w1, step, script, targets, i + 1);
        assert w'.trace[|w.trace|] == e;
        assert e.reply != Answer("ok");
        assert RepliedOk(w'.trace, |w.trace|) <==> RepliedOk(w'.trace, |w1.trace|);
      }
    }
  }

  lemma {:induction false} PollTrace(p: Page, w: World, step: nat, script: Script, deadline: real)
    ensures var r := Poll(p, w, step, script, deadline);
            && Grew(w.trace, r.world.trace, step)
            && Only(r.world.trace, |w.trace|, script)
            && (r.text == "ok" <==> RepliedOk(r.world.trace, |w.trace|))
            && (r.text == "ok" || (r.text == "timeout" && r.world.now >= deadline))
    decreases Retries(w, deadline)
  {
    var (text, w') := RunInFrames(p, w, step, script);
    EvaluateFromTrace(p, w, step, script, SearchTargets(p.frames(|w.trace|)), 0);
    if text != "ok" && w'.now < deadline {
      var later := Sleep(p, w', RETRY);
      RetriesDecrease(w, w', later, deadline);
      PollTrace(p, later, step, script, deadline);
      var r := Poll(p, later, step, script, deadline);
      assert forall j :: |w.trace| <= j < |w'.trace| ==> r.world.trace[j] == w'.trace[j];
    }
  }

  lemma {:induction false} LocateFrameTrace(p: Page, w: World, step: nat, selector: string, frames: seq<Frame>, i: nat)
    requires i <= |frames|
    ensures var (frame, w') := LocateFrame(p, w, step, selector, frames, i);
            && Grew(w.trace, w'.trace, step)
            && Only(w'.trace, |w.trace|, ExistsJS(selector))
            && (frame.Some? ==>
                  && frame.value in frames
                  && |w'.trace| > |w.trace|
                  && w'.trace[|w'.trace| - 1] == Evaluated(step, ExistsJS(selector), InFrame(frame.value), Answer("ok")))
            && (frame.None? ==> !RepliedOk(w'.trace, |w.trace|))
    decreases |frames| - i
  {
    if i < |frames| {
      var w1 := Evaluate(p, w, step, ExistsJS(selector), InFrame(frames[i]));
      if LastReply(w1) != Answer("ok") {
        LocateFrameTrace(p, w1, step, selector, frames, i + 1);
        var (frame, w') := LocateFrame(p, w1, step, selector, frames, i + 1);
        assert w'.trace[|w.trace|] == w1.trace[|w.trace|];
      }
    }
  }

  // ---- a sign-in value reaches only checked frames

  predicate TypesSecret(e: Event) {
    e.script.FillJS? && e.script.value.IsSecret()
  }

  /** The evaluations of the step begin with number j. */
  ghost predicate BeginsAt(trace: seq<Event>, j: nat, step: nat) {
    && j < |trace| && trace[j].step == step
    && forall m :: 0 <= m < j ==> trace[m].step < step
  }

  /** Typing happens in a frame that the page had reported when the step began. */
  ghost predicate Reported(p: Page, trace: seq<Event>, i: nat)
    requires i < |trace|
  {
    var e := trace[i];
    exists j :: 0 <= j < i && BeginsAt(trace, j, e.step) && e.target.InFrame? && e.target.frame in p.frames(j)
  }

  /**
   If the evaluation types a sign-in value, it does so in a reported frame whose origin is
   allowed, just after the selector was found in that very frame, and the value is the one asked for.
   */
  ghost predicate SafeAt(p: Page, trace: seq<Event>, i: nat, c: Credentials)
    requires i < |trace|
  {
    var e := trace[i];
    TypesSecret(e) ==>
      && e.target.InFrame?
      && Reported(p, trace, i)
      && HostIsAllowed(e.target.frame.host, c.allowedHosts)
      && e.script.text == (if e.script.value == Username then c.username else c.secret)
      && i > 0
      && trace[i - 1] == Evaluated(e.step, ExistsJS(e.script.selector), e.target, Answer("ok"))
  }

  ghost predicate Safe(p: Page, trace: seq<Event>, c: Credentials) {
    forall i :: 0 <= i < |trace| ==> SafeAt(p, trace, i, c)
  }

  lemma {:induction false} SafeAtStays(p: Page, before: seq<Event>, after: seq<Event>, i: nat, c: Credentials)
    requires before <= after && i < |before| && SafeAt(p, before, i, c)
    ensures SafeAt(p, after, i, c)
  {
    if TypesSecret(after[i]) {
      var j :| 0 <= j < i && BeginsAt(before, j, before[i].step) && before[i].target.frame in p.frames(j);
      assert BeginsAt(after, j, after[i].step);
    }
  }

  lemma {:induction false} SafeExtend(p: Page, before: seq<Event>, after: seq<Event>, c: Credentials)
    requires Safe(p, before, c) && before <= after
    requires forall j :: |before| <= j < |after| ==> !TypesSecret(after[j])
    ensures Safe(p, after, c)
  {
    forall i | 0 <= i < |after| ensures SafeAt(p, after, i, c) {
      if i < |before| {
        SafeAtStays(p, before, after, i, c);
      }
    }
  }

  /** A step is done: a script answered "ok", or for a sign-in value, the value was typed. */
  predicate Finishes(e: Event, step: Step) {
    if step.Fill? && step.value.IsSecret() then TypesSecret(e) else e.reply == Answer("ok")
  }

  ghost predicate DoneSince(trace: seq<Event>, from: nat, step: Step) {
    step.Wait? || exists j :: from <= j < |trace| && Finishes(trace[j], step)
  }

  lemma {:induction false} FillCredentialTrace(p: Page, w: World, c: Credentials, step: Step, index: nat)
    requires step.Fill? && step.value.IsSecret()
    requires Safe(p, w.trace, c) && Earlier(w.trace, index)
    ensures var (stop, w') := RunStep(p, w, c, step, index);
            && Grew(w.trace, w'.trace, index)
            && Safe(p, w'.trace, c)
            && (stop.None? <==> DoneSince(w'.trace, |w.trace|, step))
            && (stop.Some? ==> RefusedOrStalled(stop.value, w'.trace, |w.trace|, c, step, index))
  {
    var frames := p.frames(|w.trace|);
    LocateFrameTrace(p, w, index, step.selector, frames, 0);
    var (frame, w1) := LocateFrame(p, w, index, step.selector, frames, 0);
    SafeExtend(p, w.trace, w1.trace, c);
    var (stop, w') := RunStep(p, w, c, step, index);
    if stop.None? {
      var last := |w1.trace|;
      assert TypesSecret(w'.trace[last]);
      TypedInReported(p, w.trace, w1.trace, w'.trace, index, frame.value);
      forall i | 0 <= i < |w'.trace| ensures SafeAt(p, w'.trace, i, c) {
        if i < last {
          SafeAtStays(p, w1.trace, w'.trace, i, c);
        }
      }
    }
  }

  ghost predicate Earlier(trace: seq<Event>, step: nat) {
    forall i :: 0 <= i < |trace| ==> trace[i].step < step
  }

  lemma {:induction false} TypedInReported(p: Page, before: seq<Event>, found: seq<Event>, after: seq<Event>, index: nat, f: Frame)
    requires Earlier(before, index) && Grew(before, found, index) && |before| < |found|
    requires |after| == |found| + 1 && found <= after
    requires after[|found|].step == index && after[|found|].target == InFrame(f)
    requires f in p.frames(|before|)
    ensures Reported(p, after, |found|)
  {
    assert forall m :: 0 <= m < |before| ==> after[m] == before[m];
    assert BeginsAt(after, |before|, index);
  }

  /** How a step that is not done ends the run. */
  ghost predicate RefusedOrStalled(o: Outcome, trace: seq<Event>, from: nat, c: Credentials, step: Step, index: nat) {
    match o
    case Completed => false
    case Stalled(k, selector) => k == index + 1 && selector == Selector(step)
    case OriginRefused(host) =>
      && step.Fill? && step.value.IsSecret()
      && from < |trace|
      && var e := trace[|trace| - 1];
         && e.script == ExistsJS(step.selector) && e.reply == Answer("ok")
         && e.target.InFrame? && !HostIsAllowed(e.target.frame.host, c.allowedHosts)
         && host == (if e.target.frame.host == "" then "unknown" else e.target.frame.host)
  }

  lemma {:induction false} UnsecretTrace(p: Page, w: World, w': World, c: Credentials, step: Step, index: nat, script: Script)
    requires Safe(p, w.trace, c) && Grew(w.trace, w'.trace, index) && Only(w'.trace, |w.trace|, script)
    requires !(script.FillJS? && script.value.IsSecret()) && !(step.Fill? && step.value.IsSecret()) && !step.Wait?
    ensures Safe(p, w'.trace, c)
    ensures RepliedOk(w'.trace, |w.trace|) <==> DoneSince(w'.trace, |w.trace|, step)
  {
    SafeExtend(p, w.trace, w'.trace, c);
    assert RepliedOk(w'.trace, |w.trace|) <==> exists j :: |w.trace| <= j < |w'.trace| && Finishes(w'.trace[j], step);
  }

  lemma {:induction false} PolledTrace(p: Page, w: World, c: Credentials, step: Step, index: nat)
    requires Safe(p, w.trace, c) && (step.WaitFor? || step.ClickText?)
    ensures var (stop, w') := RunStep(p, w, c, step, index);
            && Grew(w.trace, w'.trace, index) && Safe(p, w'.trace, c)
            && (stop.None? <==> DoneSince(w'.trace, |w.trace|, step))
            && (stop.Some? ==> stop.value == Stalled(index + 1, Selector(step)))
  {
    var script := if step.WaitFor? then ExistsJS(step.selector) else ClickTextJS(step.selector, step.text);
    var r := Poll(p, w, index, script, w.now + step.timeout);
    PollTrace(p, w, index, script, w.now + step.timeout);
    UnsecretTrace(p, w, r.world, c, step, index, script);
  }

  lemma {:induction false} SearchedTrace(p: Page, w: World, c: Credentials, step: Step, index: nat)
    requires Safe(p, w.trace, c) && (step.Click? || step.Submit? || (step.Fill? && !step.value.IsSecret()))
    ensures var (stop, w') := RunStep(p, w, c, step, index);
            && Grew(w.trace, w'.trace, index) && Safe(p, w'.trace, c)
            && (stop.None? <==> DoneSince(w'.trace, |w.trace|, step))
            && (stop.Some? ==> stop.value == Stalled(index + 1, Selector(step)))
  {
    var script := match step
      case Click(s) => ClickJS(s)
      case Submit(s) => SubmitJS(s)
      case Fill(s, v) => FillJS(s, v, Resolve(c, v));
    var (text, w') := RunInFrames(p, w, index, script);
    EvaluateFromTrace(p, w, index, script, SearchTargets(p.frames(|w.trace|)), 0);
    UnsecretTrace(p, w, w', c, step, index, script);
  }

  /** One step: only its own evaluations, safe ones, and it lets the run go on exactly when it is done. */
  lemma {:induction false} RunStepTrace(p: Page, w: World, c: Credentials, step: Step, index: nat)
    requires Safe(p, w.trace, c) && Earlier(w.trace, index)
    ensures var (stop, w') := RunStep(p, w, c, step, index);
            && Grew(w.trace, w'.trace, index)
            && Safe(p, w'.trace, c)
            && (stop.None? <==> DoneSince(w'.trace, |w.trace|, step))
            && (stop.Some? ==> RefusedOrStalled(stop.value, w'.trace, |w.trace|, c, step, index))
  {
    if step.Fill? && step.value.IsSecret() {
      FillCredentialTrace(p, w, c, step, index);
    } else if step.WaitFor? || step.ClickText? {
      PolledTrace(p, w, c, step, index);
    } else if !step.Wait? {
      SearchedTrace(p, w, c, step, index);
    }
  }

  // ---- what a step evaluates, and where

  predicate IsMissing(reply: Reply) {
    !reply.Answer? || reply.text == "missing"
  }

  /** The k-th place to look: the k-th reported frame, or the main frame if none is reported. */
  predicate AimedAt(frames: seq<Frame>, k: nat, target: Target) {
    if frames == [] then k == 0 && target == MainFrame else k < |frames| && target == InFrame(frames[k])
  }

  function Places(frames: seq<Frame>): nat { if frames == [] then 1 else |frames| }

  /** The first evaluations of a search, none of them answered. */
  ghost predicate Looking(p: Page, trace: seq<Event>, from: nat, to: nat, step: nat, script: Script) {
    && from <= to <= |trace| && to - from <= Places(p.frames(from))
    && forall j :: from <= j < to ==>
         && trace[j].step == step && trace[j].script == script && AimedAt(p.frames(from), j - from, trace[j].target)
         && IsMissing(trace[j].reply)
  }

  /** One search: the places in order up to the first answer, and all of them if there is none. */
  ghost predicate IsSearch(p: Page, trace: seq<Event>, from: nat, to: nat, step: nat, script: Script) {
    && from < to <= |trace| && Looking(p, trace, from, to - 1, step, script)
    && var e := trace[to - 1];
       && e.step == step && e.script == script && AimedAt(p.frames(from), to - 1 - from, e.target)
       && (IsMissing(e.reply) ==> to - from == Places(p.frames(from)))
  }

  /** Searches one after the other, of which only the last can have succeeded. */
  ghost predicate IsPoll(p: Page, trace: seq<Event>, from: nat, to: nat, step: nat, script: Script)
    decreases if from < to then to - from else 0
  {
    IsSearch(p, trace, from, to, step, script) ||
    exists mid :: from < mid < to && IsSearch(p, trace, from, mid, step, script)
                  && trace[mid - 1].reply != Answer("ok") && IsPoll(p, trace, mid, to, step, script)
  }

  ghost predicate Found(trace: seq<Event>, from: nat, to: nat) {
    from < to <= |trace| && trace[to - 1].reply == Answer("ok")
  }

  /** The reported frames in order, asked for the selector up to the first that has it. */
  ghost predicate IsLocating(p: Page, trace: seq<Event>, from: nat, to: nat, step: nat, selector: string) {
    && from <= to <= |trace| && to - from <= |p.frames(from)|
    && (forall j :: from <= j < to ==>
          trace[j].step == step && trace[j].script == ExistsJS(selector) && trace[j].target == InFrame(p.frames(from)[j - from]))
    && (forall j :: from <= j < to - 1 ==> trace[j].reply != Answer("ok"))
    && (!Found(trace, from, to) ==> to - from == |p.frames(from)|)
  }

  ghost predicate FoundAllowed(trace: seq<Event>, from: nat, to: nat, c: Credentials) {
    Found(trace, from, to) && trace[to - 1].target.InFrame? && HostIsAllowed(trace[to - 1].target.frame.host, c.allowedHosts)
  }

  /** Typing a sign-in value: the frame is located, and if its origin is allowed, typed into. */
  ghost predicate IsCredentialFill(p: Page, trace: seq<Event>, from: nat, to: nat, c: Credentials, step: nat, selector: string, value: FillValue) {
    if to > from && to <= |trace| && trace[to - 1].script.FillJS? then
      && IsLocating(p, trace, from, to - 1, step, selector) && FoundAllowed(trace, from, to - 1, c)
      && trace[to - 1].script == FillJS(selector, value, if value == Username then c.username else c.secret)
      && trace[to - 1].step == step && trace[to - 1].target == trace[to - 2].target
    else IsLocating(p, trace, from, to, step, selector) && !FoundAllowed(trace, from, to, c)
  }

  /** The evaluations from number from to number to are those the step asks for. */
  ghost predicate StepMade(p: Page, trace: seq<Event>, from: nat, to: nat, c: Credentials, step: Step, index: nat) {
    match step
    case Click(s) => IsSearch(p, trace, from, to, index, ClickJS(s))
    case Submit(s) => IsSearch(p, trace, from, to, index, SubmitJS(s))
    case Wait(_) => from == to
    case WaitFor(s, _) => IsPoll(p, trace, from, to, index, ExistsJS(s))
    case ClickText(s, text, _) => IsPoll(p, trace, from, to, index, ClickTextJS(s, text))
    case Fill(s, Literal(text)) => IsSearch(p, trace, from, to, index, FillJS(s, Literal(text), text))
    case Fill(s, value) => IsCredentialFill(p, trace, from, to, c, index, s, value)
  }

  /** The step succeeded, by its last evaluation. */
  predicate Succeeded(trace: seq<Event>, from: nat, to: nat, step: Step) {
    step.Wait? ||
    (from < to <= |trace| && if step.Fill? && step.value.IsSecret() then trace[to - 1].script.FillJS? else trace[to - 1].reply == Answer("ok"))
  }

  /** The step and its label, as the outcome names them. */
  predicate Names(step: Step, text: string) {
    match step
    case ClickText(s, caption, _) => text == s + " \U{201c}" + caption + "\U{201d}"
    case Wait(_) => false
    case _ => text == step.selector
  }

  /** Why a run stops at a step: a found frame whose origin is refused, and otherwise a stall. */
  ghost predicate Stops(o: Outcome, trace: seq<Event>, from: nat, to: nat, step: Step, index: nat) {
    if step.Fill? && step.value.IsSecret() && Found(trace, from, to) then
      trace[to - 1].target.InFrame?
      && var host := trace[to - 1].target.frame.host; o == OriginRefused(if host == "" then "unknown" else host)
    else o.Stalled? && o.step == index + 1 && Names(step, o.selector)
  }

  function LastText(reply: Reply): string {
    if reply.Answer? then reply.text else "missing"
  }

  lemma {:induction false} SearchStep(p: Page, w: World, step: nat, script: Script, from: nat, i: nat)
    requires |w.trace| == from + i && Looking(p, w.trace, from, from + i, step, script)
    requires i < Places(p.frames(from))
    ensures var target := SearchTargets(p.frames(from))[i];
            var w' := Evaluate(p, w, step, script, target);
            && AimedAt(p.frames(from), i, target)
            && Looking(p, w'.trace, from, from + i, step, script)
            && (IsMissing(LastReply(w')) ==> Looking(p, w'.trace, from, from + i + 1, step, script))
  {
  }

  lemma {:induction false} SearchMade(p: Page, w: World, step: nat, script: Script, from: nat, i: nat)
    requires |w.trace| == from + i && Looking(p, w.trace, from, from + i, step, script)
    requires i < Places(p.frames(from))
    ensures var (text, w') := EvaluateFrom(p, w, step, script, SearchTargets(p.frames(from)), i);
            && w.trace <= w'.trace
            && IsSearch(p, w'.trace, from, |w'.trace|, step, script)
            && text == LastText(w'.trace[|w'.trace| - 1].reply)
    decreases Places(p.frames(from)) - i
  {
    var targets := SearchTargets(p.frames(from));
    var w1 := Evaluate(p, w, step, script, targets[i]);
    SearchStep(p, w, step, script, from, i);
    if IsMissing(LastReply(w1)) && i + 1 < |targets| {
      SearchMade(p, w1, step, script, from, i + 1);
    }
  }

  lemma {:induction false} InFramesMade(p: Page, w: World, step: nat, script: Script)
    ensures var (text, w') := RunInFrames(p, w, step, script);
            && w.trace <= w'.trace
            && IsSearch(p, w'.trace, |w.trace|, |w'.trace|, step, script)
            && text == LastText(w'.trace[|w'.trace| - 1].reply)
  {
    SearchMade(p, w, step, script, |w.trace|, 0);
  }

  lemma {:induction false} SearchStays(p: Page, before: seq<Event>, after: seq<Event>, from: nat, to: nat, step: nat, script: Script)
    requires before <= after && IsSearch(p, before, from, to, step, script)
    ensures IsSearch(p, after, from, to, step, script)
  {
  }

  lemma {:induction false} PollMade(p: Page, w: World, step: nat, script: Script, deadline: real)
    ensures var r := Poll(p, w, step, script, deadline);
            && w.trace <= r.world.trace
            && PollEnded(p, r.world.trace, |w.trace|, step, script, r.text == "ok")
    decreases Retries(w, deadline)
  {
    var (text, w') := RunInFrames(p, w, step, script);
    InFramesMade(p, w, step, script);
    if text != "ok" && w'.now < deadline {
      var later := Sleep(p, w', RETRY);
      RetriesDecrease(w, w', later, deadline);
      PollMade(p, later, step, script, deadline);
      var r := Poll(p, later, step, script, deadline);
      PollExtends(p, w'.trace, r.world.trace, |w.trace|, step, script, r.text == "ok");
    } else {
      PollOnce(p, w'.trace, |w.trace|, step, script, text);
    }
  }

  ghost predicate PollEnded(p: Page, trace: seq<Event>, from: nat, step: nat, script: Script, ok: bool) {
    && from < |trace|
    && IsPoll(p, trace, from, |trace|, step, script)
    && (ok <==> trace[|trace| - 1].reply == Answer("ok"))
  }

  lemma {:induction false} PollOnce(p: Page, trace: seq<Event>, from: nat, step: nat, script: Script, text: string)
    requires IsSearch(p, trace, from, |trace|, step, script) && text == LastText(trace[|trace| - 1].reply)
    ensures PollEnded(p, trace, from, step, script, text == "ok")
  {
  }

  lemma {:induction false} PollExtends(p: Page, before: seq<Event>, after: seq<Event>, from: nat, step: nat, script: Script, ok: bool)
    requires before <= after && IsSearch(p, before, from, |before|, step, script) && before[|before| - 1].reply != Answer("ok")
    requires PollEnded(p, after, |before|, step, script, ok)
    ensures PollEnded(p, after, from, step, script, ok)
  {
    SearchStays(p, before, after, from, |before|, step, script);
    IsPollStep(p, after, from, |before|, |after|, step, script);
  }

  lemma {:induction false} IsPollStep(p: Page, trace: seq<Event>, from: nat, mid: nat, to: nat, step: nat, script: Script)
    requires IsSearch(p, trace, from, mid, step, script) && trace[mid - 1].reply != Answer("ok")
    requires mid <= to && IsPoll(p, trace, mid, to, step, script)
    ensures IsPoll(p, trace, from, to, step, script)
  {
    PollNotEmpty(p, trace, mid, to, step, script);
  }

  lemma {:induction false} PollNotEmpty(p: Page, trace: seq<Event>, from: nat, to: nat, step: nat, script: Script)
    requires from <= to && IsPoll(p, trace, from, to, step, script)
    ensures from < to <= |trace|
    decreases if from < to then to - from else 0
  {
    if !IsSearch(p, trace, from, to, step, script) {
      var mid :| from < mid < to && IsSearch(p, trace, from, mid, step, script)
                 && trace[mid - 1].reply != Answer("ok") && IsPoll(p, trace, mid, to, step, script);
      PollNotEmpty(p, trace, mid, to, step, script);
    }
  }

  lemma {:induction false} LocatingMade(p: Page, w: World, step: nat, selector: string, from: nat, i: nat)
    requires |w.trace| == from + i && i <= |p.frames(from)|
    requires forall j :: from <= j < from + i ==>
               && w.trace[j].step == step && w.trace[j].script == ExistsJS(selector)
               && w.trace[j].target == InFrame(p.frames(from)[j - from]) && w.trace[j].reply != Answer("ok")
    ensures var (frame, w') := LocateFrame(p, w, step, selector, p.frames(from), i);
            && w.trace <= w'.trace
            && IsLocating(p, w'.trace, from, |w'.trace|, step, selector)
            && (frame.Some? <==> Found(w'.trace, from, |w'.trace|))
            && (frame.Some? ==> w'.trace[|w'.trace| - 1].target == InFrame(frame.value))
    decreases |p.frames(from)| - i
  {
    if i < |p.frames(from)| {
      var w1 := Evaluate(p, w, step, ExistsJS(selector), InFrame(p.frames(from)[i]));
      if LastReply(w1) != Answer("ok") {
        LocatingMade(p, w1, step, selector, from, i + 1);
      }
    }
  }

  lemma {:induction false} CredentialFillMade(p: Page, w: World, c: Credentials, step: Step, index: nat)
    requires step.Fill? && step.value.IsSecret()
    ensures var (stop, w') := RunStep(p, w, c, step, index);
            var from, to := |w.trace|, |w'.trace|;
            && w.trace <= w'.trace
            && StepMade(p, w'.trace, from, to, c, step, index)
            && (stop.None? <==> Succeeded(w'.trace, from, to, step))
            && (stop.Some? ==> Stops(stop.value, w'.trace, from, to, step, index))
  {
    LocatingMade(p, w, index, step.selector, |w.trace|, 0);
    var (frame, w1) := LocateFrame(p, w, index, step.selector, p.frames(|w.trace|), 0);
    var (stop, w') := RunStep(p, w, c, step, index);
    if stop.None? {
      LocatingStays(p, w1.trace, w'.trace, |w.trace|, |w1.trace|, index, step.selector);
    }
  }

  lemma {:induction false} LocatingStays(p: Page, before: seq<Event>, after: seq<Event>, from: nat, to: nat, step: nat, selector: string)
    requires before <= after && IsLocating(p, before, from, to, step, selector)
    ensures IsLocating(p, after, from, to, step, selector)
  {
  }

  lemma {:induction false} PolledStepMade(p: Page, w: World, step: nat, script: Script, deadline: real)
    ensures var r := Poll(p, w, step, script, deadline);
            var from, to := |w.trace|, |r.world.trace|;
            && w.trace <= r.world.trace
            && from < to && IsPoll(p, r.world.trace, from, to, step, script)
            && (r.text == "ok" <==> r.world.trace[to - 1].reply == Answer("ok"))
  {
    PollMade(p, w, step, script, deadline);
  }

  lemma {:induction false} SearchedStepMade(p: Page, w: World, step: nat, script: Script)
    ensures var (text, w') := RunInFrames(p, w, step, script);
            var from, to := |w.trace|, |w'.trace|;
            && w.trace <= w'.trace
            && from < to && IsSearch(p, w'.trace, from, to, step, script)
            && (text == "ok" <==> w'.trace[to - 1].reply == Answer("ok"))
  {
    InFramesMade(p, w, step, script);
  }

  lemma {:induction false} WaitForMade(p: Page, w: World, c: Credentials, step: Step, index: nat)
    requires step.WaitFor?
    ensures var (stop, w') := RunStep(p, w, c, step, index);
            var from, to := |w.trace|, |w'.trace|;
            && w.trace <= w'.trace
            && StepMade(p, w'.trace, from, to, c, step, index)
            && (stop.None? <==> Succeeded(w'.trace, from, to, step))
            && (stop.Some? ==> Stops(stop.value, w'.trace, from, to, step, index))
  {
    PolledStepMade(p, w, index, ExistsJS(step.selector), w.now + step.timeout);
  }

  lemma {:induction false} ClickTextMade(p: Page, w: World, c: Credentials, step: Step, index: nat)
    requires step.ClickText?
    ensures var (stop, w') := RunStep(p, w, c, step, index);
            var from, to := |w.trace|, |w'.trace|;
            && w.trace <= w'.trace
            && StepMade(p, w'.trace, from, to, c, step, index)
            && (stop.None? <==> Succeeded(w'.trace, from, to, step))
            && (stop.Some? ==> Stops(stop.value, w'.trace, from, to, step, index))
  {
    PolledStepMade(p, w, index, ClickTextJS(step.selector, step.text), w.now + step.timeout);
  }

  lemma {:induction false} SearchedMade(p: Page, w: World, c: Credentials, step: Step, index: nat)
    requires step.Click? || step.Submit? || (step.Fill? && !step.value.IsSecret())
    ensures var (stop, w') := RunStep(p, w, c, step, index);
            var from, to := |w.trace|, |w'.trace|;
            && w.trace <= w'.trace
            && StepMade(p, w'.trace, from, to, c, step, index)
            && (stop.None? <==> Succeeded(w'.trace, from, to, step))
            && (stop.Some? ==> Stops(stop.value, w'.trace, from, to, step, index))
  {
    match step
    case Click(s) => SearchedStepMade(p, w, index, ClickJS(s));
    case Submit(s) => SearchedStepMade(p, w, index, SubmitJS(s));
    case Fill(s, v) => SearchedStepMade(p, w, index, FillJS(s, v, v.text));
  }

  /**
   One step: the evaluations it asks for, each search through the places in order, and
   nothing else; it lets the run go on exactly when its last evaluation succeeded.
   */
  lemma {:induction false} RunStepMade(p: Page, w: World, c: Credentials, step: Step, index: nat)
    ensures var (stop, w') := RunStep(p, w, c, step, index);
            var from, to := |w.trace|, |w'.trace|;
            && w.trace <= w'.trace
            && StepMade(p, w'.trace, from, to, c, step, index)
            && (stop.None? <==> Succeeded(w'.trace, from, to, step))
            && (stop.Some? ==> Stops(stop.value, w'.trace, from, to, step, index))
  {
    if step.WaitFor? {
      WaitForMade(p, w, c, step, index);
    } else if step.ClickText? {
      ClickTextMade(p, w, c, step, index);
    } else if step.Fill? && step.value.IsSecret() {
      CredentialFillMade(p, w, c, step, index);
    } else if !step.Wait? {
      SearchedMade(p, w, c, step, index);
    }
  }

  lemma {:induction false} PollStays(p: Page, before: seq<Event>, after: seq<Event>, from: nat, to: nat, step: nat, script: Script)
    requires before <= after && from <= to <= |before| && IsPoll(p, before, from, to, step, script)
    ensures IsPoll(p, after, from, to, step, script)
    decreases if from < to then to - from else 0
  {
    if IsSearch(p, before, from, to, step, script) {
      SearchStays(p, before, after, from, to, step, script);
    } else {
      var mid :| from < mid < to && IsSearch(p, before, from, mid, step, script)
                 && before[mid - 1].reply != Answer("ok") && IsPoll(p, before, mid, to, step, script);
      SearchStays(p, before, after, from, mid, step, script);
      PollStays(p, before, after, mid, to, step, script);
      IsPollStep(p, after, from, mid, to, step, script);
    }
  }

  lemma {:induction false} CredentialFillStays(p: Page, before: seq<Event>, after: seq<Event>, from: nat, to: nat, c: Credentials,
                                               step: nat, selector: string, value: FillValue)
    requires before <= after && from <= to <= |before|
    requires IsCredentialFill(p, before, from, to, c, step, selector, value)
    ensures IsCredentialFill(p, after, from, to, c, step, selector, value)
  {
    if to > from && before[to - 1].script.FillJS? {
      LocatingStays(p, before, after, from, to - 1, step, selector);
    } else {
      LocatingStays(p, before, after, from, to, step, selector);
    }
  }

  lemma {:induction false} StepMadeStays(p: Page, before: seq<Event>, after: seq<Event>, from: nat, to: nat, c: Credentials, step: Step, index: nat)
    requires before <= after && from <= to <= |before| && StepMade(p, before, from, to, c, step, index)
    ensures StepMade(p, after, from, to, c, step, index)
  {
    match step
    case Click(s) => SearchStays(p, before, after, from, to, index, ClickJS(s));
    case Submit(s) => SearchStays(p, before, after, from, to, index, SubmitJS(s));
    case Wait(_) =>
    case WaitFor(s, _) => PollStays(p, before, after, from, to, index, ExistsJS(s));
    case ClickText(s, text, _) => PollStays(p, before, after, from, to, index, ClickTextJS(s, text));
    case Fill(s, v) =>
      if v.IsSecret() {
        CredentialFillStays(p, before, after, from, to, c, index, s, v);
      } else {
        SearchStays(p, before, after, from, to, index, FillJS(s, v, v.text));
      }
  }

  // ---- whole runs

  /** The evaluations of the steps in order, none for a step past n. */
  ghost predicate InOrder(trace: seq<Event>, n: nat) {
    && (forall i, j :: 0 <= i < j < |trace| ==> trace[i].step <= trace[j].step)
    && (forall i :: 0 <= i < |trace| ==> trace[i].step <= n)
  }

  /** The step was done, by the evaluations made for it. */
  ghost predicate Done(trace: seq<Event>, steps: seq<Step>, i: nat)
    requires i < |steps|
  {
    steps[i].Wait? || exists j :: 0 <= j < |trace| && trace[j].step == i && Finishes(trace[j], steps[i])
  }

  /**
   The outcome, read off the trace: the steps before n are done, no evaluation was made
   for a step after n, and step n, if there is one, is not done and explains the outcome.
   */
  ghost predicate Explains(o: Outcome, trace: seq<Event>, c: Credentials, steps: seq<Step>, n: nat) {
    && n <= |steps|
    && InOrder(trace, n)
    && (forall i :: 0 <= i < n ==> Done(trace, steps, i))
    && (n == |steps| <==> o == Completed)
    && (n < |steps| ==> !Done(trace, steps, n) && RefusedOrStalled(o, trace, 0, c, steps[n], n))
  }

  lemma {:induction false} RunFromTrace(p: Page, w: World, c: Credentials, steps: seq<Step>, index: nat) returns (n: nat)
    requires index <= |steps|
    requires Safe(p, w.trace, c)
    requires InOrder(w.trace, index)
    requires Earlier(w.trace, index)
    requires forall i :: 0 <= i < index ==> Done(w.trace, steps, i)
    ensures var (o, w') := RunFrom(p, w, c, steps, index);
            Safe(p, w'.trace, c) && Explains(o, w'.trace, c, steps, n)
    decreases |steps| - index
  {
    n := index;
    if index < |steps| {
      var step := steps[index];
      RunStepTrace(p, w, c, step, index);
      var (stop, w') := RunStep(p, w, c, step, index);
      DoneHere(w.trace, w'.trace, steps, index);
      if stop.None? {
        n := RunFromTrace(p, w', c, steps, index + 1);
      }
    }
  }

  /** Doneness of a step is decided by what its own evaluations add to the trace. */
  lemma {:induction false} DoneHere(before: seq<Event>, after: seq<Event>, steps: seq<Step>, index: nat)
    requires index < |steps|
    requires Grew(before, after, index)
    requires InOrder(before, index)
    requires Earlier(before, index)
    requires forall i :: 0 <= i < index ==> Done(before, steps, i)
    ensures InOrder(after, index)
    ensures Earlier(after, index + 1)
    ensures Done(after, steps, index) <==> DoneSince(after, |before|, steps[index])
    ensures forall i :: 0 <= i < index ==> Done(after, steps, i)
  {
    forall i | 0 <= i < index ensures Done(after, steps, i) {
      assert Done(before, steps, i);
      if !steps[i].Wait? {
        var j :| 0 <= j < |before| && before[j].step == i && Finishes(before[j], steps[i]);
        assert after[j] == before[j];
      }
    }
    assert forall j :: 0 <= j < |before| ==> after[j] == before[j];
  }

  /**
   In every run, against any page: a sign-in value is typed only into a frame where its
   selector was found and whose origin is allowed, and the outcome is the one the trace explains.
   */
  lemma {:induction false} RunIsSafe(p: Page, start: real, c: Credentials, steps: seq<Step>) returns (n: nat)
    ensures var (o, w) := Run(p, start, c, steps);
            Safe(p, w.trace, c) && Explains(o, w.trace, c, steps, n)
  {
    n := RunFromTrace(p, World(start, []), c, steps, 0);
  }

  // ---- a run, evaluation by evaluation

  /** Step i made the evaluations from number bounds[i] up to number bounds[i + 1], and succeeded. */
  ghost predicate SucceededAt(p: Page, trace: seq<Event>, c: Credentials, steps: seq<Step>, bounds: seq<nat>, i: nat) {
    && i < |steps| && i + 1 < |bounds|
    && bounds[i] <= bounds[i + 1] <= |trace|
    && StepMade(p, trace, bounds[i], bounds[i + 1], c, steps[i], i)
    && Succeeded(trace, bounds[i], bounds[i + 1], steps[i])
  }

  /** So did the first n steps. */
  ghost predicate Succeeding(p: Page, trace: seq<Event>, c: Credentials, steps: seq<Step>, bounds: seq<nat>, n: nat) {
    && n <= |steps| && n < |bounds| && bounds[0] == 0
    && forall i :: 0 <= i < n ==> SucceededAt(p, trace, c, steps, bounds, i)
  }

  /**
   The whole trace: the evaluations of each step in turn, and no others. All steps but the
   last one made succeeded; the run completes exactly when all steps of the recipe did, and
   otherwise the last one made did not and says why.
   */
  ghost predicate Follows(p: Page, o: Outcome, trace: seq<Event>, c: Credentials, steps: seq<Step>, bounds: seq<nat>) {
    var n := |bounds| - 1;
    && n >= 0 && bounds[n] == |trace|
    && if o == Completed then n == |steps| && Succeeding(p, trace, c, steps, bounds, n)
       else
         && 0 < n <= |steps| && Succeeding(p, trace, c, steps, bounds, n - 1)
         && bounds[n - 1] <= |trace|
         && StepMade(p, trace, bounds[n - 1], |trace|, c, steps[n - 1], n - 1)
         && !Succeeded(trace, bounds[n - 1], |trace|, steps[n - 1])
         && Stops(o, trace, bounds[n - 1], |trace|, steps[n - 1], n - 1)
  }

  lemma {:induction false} SucceededAtStays(p: Page, before: seq<Event>, after: seq<Event>, c: Credentials, steps: seq<Step>,
                                           bounds: seq<nat>, more: seq<nat>, i: nat)
    requires before <= after && bounds <= more && SucceededAt(p, before, c, steps, bounds, i)
    ensures SucceededAt(p, after, c, steps, more, i)
  {
    StepMadeStays(p, before, after, bounds[i], bounds[i + 1], c, steps[i], i);
  }

  lemma {:induction false} SucceedingStays(p: Page, before: seq<Event>, after: seq<Event>, c: Credentials, steps: seq<Step>,
                                           bounds: seq<nat>, more: seq<nat>, n: nat)
    requires before <= after && bounds <= more && Succeeding(p, before, c, steps, bounds, n)
    ensures Succeeding(p, after, c, steps, more, n)
  {
    forall i | 0 <= i < n ensures SucceededAt(p, after, c, steps, more, i) {
      SucceededAtStays(p, before, after, c, steps, bounds, more, i);
    }
  }

  lemma {:induction false} OneMoreStep(p: Page, before: seq<Event>, after: seq<Event>, c: Credentials, steps: seq<Step>, bounds: seq<nat>,
                                       n: nat, stop: Option<Outcome>)
    requires before <= after && n < |steps| && |bounds| == n + 1 && bounds[n] == |before|
    requires Succeeding(p, before, c, steps, bounds, n)
    requires StepMade(p, after, |before|, |after|, c, steps[n], n)
    requires stop.None? <==> Succeeded(after, |before|, |after|, steps[n])
    requires stop.Some? ==> Stops(stop.value, after, |before|, |after|, steps[n], n)
    ensures stop.None? ==> Succeeding(p, after, c, steps, bounds + [|after|], n + 1)
    ensures stop.Some? ==> Follows(p, stop.value, after, c, steps, bounds + [|after|])
  {
    var more := bounds + [|after|];
    SucceedingStays(p, before, after, c, steps, bounds, more, n);
    assert stop.None? ==> SucceededAt(p, after, c, steps, more, n);
  }

  lemma {:induction false} RunFromFollows(p: Page, w: World, c: Credentials, steps: seq<Step>, index: nat, bounds: seq<nat>) returns (all: seq<nat>)
    requires index <= |steps| && |bounds| == index + 1 && bounds[index] == |w.trace|
    requires Succeeding(p, w.trace, c, steps, bounds, index)
    ensures var (o, w') := RunFrom(p, w, c, steps, index);
            Follows(p, o, w'.trace, c, steps, all)
    decreases |steps| - index
  {
    all := bounds;
    if index < |steps| {
      RunStepMade(p, w, c, steps[index], index);
      var (stop, w') := RunStep(p, w, c, steps[index], index);
      OneMoreStep(p, w.trace, w'.trace, c, steps, bounds, index, stop);
      all := bounds + [|w'.trace|];
      if stop.None? {
        all := RunFromFollows(p, w', c, steps, index + 1, all);
      }
    }
  }

  /** Every run, against any page, evaluates exactly what its steps ask for, where they ask for it. */
  lemma {:induction false} RunFollows(p: Page, start: real, c: Credentials, steps: seq<Step>) returns (bounds: seq<nat>)
    ensures var (o, w) := Run(p, start, c, steps);
            Follows(p, o, w.trace, c, steps, bounds)
  {
    bounds := RunFromFollows(p, World(start, []), c, steps, 0, [0]);
  }

  // ---- how often a polled step looks

  function Ceiling(x: real): int {
    -((-x).Floor)
  }

  /** At most one look at the start and one for every quarter second up to the deadline. */
  lemma {:induction false} PollBound(p: Page, w: World, step: nat, script: Script, deadline: real)
    ensures Poll(p, w, step, script, deadline).probes
         <= if deadline >= w.now then Ceiling((deadline - w.now) * 4.0) + 1 else 1
    decreases Retries(w, deadline)
  {
    var (text, w') := RunInFrames(p, w, step, script);
    var x := (deadline - w.now) * 4.0;
    assert deadline >= w.now ==> Ceiling(x) as real >= x;
    if text != "ok" && w'.now < deadline {
      var later := Sleep(p, w', RETRY);
      RetriesDecrease(w, w', later, deadline);
      PollBound(p, later, step, script, deadline);
      var y := (deadline - later.now) * 4.0;
      assert y <= x - 1.0;
      CeilingStep(y, x);
    }
  }

  lemma {:induction false} CeilingStep(y: real, x: real)
    requires y <= x - 1.0
    ensures Ceiling(y) + 1 <= Ceiling(x)
  {
    assert (-x).Floor as real <= -x;
    assert ((-y).Floor + 1) as real > -y;
  }

  /** A step of an accepted recipe looks at most 481 times. */
  lemma {:induction false} RecipePollBound(p: Page, w: World, step: nat, script: Script, timeout: real)
    requires InRange(timeout)
    ensures Poll(p, w, step, script, w.now + timeout).probes <= 481
  {
    PollBound(p, w, step, script, w.now + timeout);
    var x := (w.now + timeout - w.now) * 4.0;
    assert x <= 480.0;
    assert (-x).Floor >= -480 by {
      assert ((-x).Floor + 1) as real > -x;
    }
  }

  // ---- how long steps take

  /** Callbacks and timers come without delay. */
  ghost predicate Prompt(p: Page) {
    forall k :: p.latency(k) == 0.0 && p.slip(k) == 0.0
  }

  lemma {:induction false} SearchTakesNoTime(p: Page, w: World, step: nat, script: Script, targets: seq<Target>, i: nat)
    requires Prompt(p) && i <= |targets|
    ensures EvaluateFrom(p, w, step, script, targets, i).1.now == w.now
    decreases |targets| - i
  {
    if i < |targets| {
      assert p.latency(|w.trace|) == 0.0;
      SearchTakesNoTime(p, Evaluate(p, w, step, script, targets[i]), step, script, targets, i + 1);
    }
  }

  /** On a prompt page, a poll that fails has looked every quarter second, up to the first look at or after the deadline. */
  lemma {:induction false} FailedPollTakes(p: Page, w: World, step: nat, script: Script, deadline: real)
    requires Prompt(p) && deadline >= w.now
    requires Poll(p, w, step, script, deadline).text != "ok"
    ensures var r := Poll(p, w, step, script, deadline);
            && r.world.now == w.now + 0.25 * Ceiling((deadline - w.now) * 4.0) as real
            && r.probes == Ceiling((deadline - w.now) * 4.0) + 1
    decreases Retries(w, deadline)
  {
    var (text, w') := RunInFrames(p, w, step, script);
    SearchTakesNoTime(p, w, step, script, SearchTargets(p.frames(|w.trace|)), 0);
    var x := (deadline - w.now) * 4.0;
    if w'.now < deadline {
      var later := Sleep(p, w', RETRY);
      assert p.slip(|w'.trace|) == 0.0;
      RetriesDecrease(w, w', later, deadline);
      var y := (deadline - later.now) * 4.0;
      assert y == x - 1.0;
      if later.now <= deadline {
        FailedPollTakes(p, later, step, script, deadline);
        CeilingShift(y, x);
      } else {
        LateLook(p, later, step, script, deadline);
        CeilingOfPart(x);
      }
    } else {
      assert x == 0.0;
    }
  }

  lemma {:induction false} LateLook(p: Page, w: World, step: nat, script: Script, deadline: real)
    requires Prompt(p) && deadline <= w.now
    ensures Poll(p, w, step, script, deadline).probes == 1 && Poll(p, w, step, script, deadline).world.now == w.now
  {
    SearchTakesNoTime(p, w, step, script, SearchTargets(p.frames(|w.trace|)), 0);
  }

  lemma {:induction false} CeilingShift(y: real, x: real)
    requires y == x - 1.0
    ensures Ceiling(x) == Ceiling(y) + 1
  {
    assert -y == -x + 1.0;
    FloorIs(-y, (-x).Floor + 1);
  }

  lemma {:induction false} CeilingOfPart(x: real)
    requires 0.0 < x < 1.0
    ensures Ceiling(x) == 1
  {
    FloorIs(-x, -1);
  }

  lemma {:induction false} FloorIs(x: real, n: int)
    requires n as real <= x < (n + 1) as real
    ensures x.Floor == n
  {
  }

  /** A pause takes its seconds; a polled step that stalls takes its timeout, to the next quarter second. */
  lemma {:induction false} StepTakes(p: Page, w: World, c: Credentials, step: Step, index: nat)
    requires Prompt(p)
    ensures var (stop, w') := RunStep(p, w, c, step, index);
            && (step.Wait? ==> w'.now == w.now + step.seconds)
            && ((step.WaitFor? || step.ClickText?) && step.timeout >= 0.0 && stop.Some? ==>
                  w'.now == w.now + 0.25 * Ceiling(step.timeout * 4.0) as real)
  {
    assert p.slip(|w.trace|) == 0.0;
    var (stop, w') := RunStep(p, w, c, step, index);
    if stop.Some? && step.WaitFor? && step.timeout >= 0.0 {
      FailedPollTakes(p, w, index, ExistsJS(step.selector), w.now + step.timeout);
      assert w.now + step.timeout - w.now == step.timeout;
    } else if stop.Some? && step.ClickText? && step.timeout >= 0.0 {
      FailedPollTakes(p, w, index, ClickTextJS(step.selector, step.text), w.now + step.timeout);
      assert w.now + step.timeout - w.now == step.timeout;
    }
  }

  // ---- the engine itself; where the source passes a completion, a method returns

  class BrowserLaneLoginRunner {
    const page: Page
    const allowedHosts: seq<string>
    var now: real
    var trace: seq<Event>
    var active: bool

    ghost function State(): World
      reads this
    {
      World(now, trace)
    }

    constructor (page: Page, allowedHosts: seq<string>, start: real)
      ensures this.page == page && this.allowedHosts == allowedHosts
      ensures State() == World(start, []) && !active
    {
      this.page, this.allowedHosts, now, trace, active := page, allowedHosts, start, [], false;
    }

    method EvaluateScript(step: nat, script: Script, target: Target) returns (reply: Reply)
      modifies this`now, this`trace
      ensures State() == Evaluate(page, old(State()), step, script, target)
      ensures reply == LastReply(State())
    {
      var k := |trace|;
      reply := page.reply(k);
      now := now + page.latency(k);
      trace := trace + [Evaluated(step, script, target, reply)];
    }

    method Search(step: nat, script: Script, targets: seq<Target>, i: nat) returns (text: string)
      requires i <= |targets|
      modifies this`now, this`trace
      ensures (text, State()) == EvaluateFrom(page, old(State()), step, script, targets, i)
      decreases |targets| - i
    {
      if i == |targets| {
        return "missing";
      }
      var reply := EvaluateScript(step, script, targets[i]);
      if reply.Answer? && reply.text != "missing" {
        return reply.text;
      }
      text := Search(step, script, targets, i + 1);
    }

    method SearchFrames(step: nat, script: Script) returns (text: string)
      modifies this`now, this`trace
      ensures (text, State()) == RunInFrames(page, old(State()), step, script)
    {
      text := Search(step, script, SearchTargets(page.frames(|trace|)), 0);
    }

    method Locate(step: nat, selector: string, frames: seq<Frame>, i: nat) returns (frame: Option<Frame>)
      requires i <= |frames|
      modifies this`now, this`trace
      ensures (frame, State()) == LocateFrame(page, old(State()), step, selector, frames, i)
      decreases |frames| - i
    {
      if i == |frames| {
        return None;
      }
      var reply := EvaluateScript(step, ExistsJS(selector), InFrame(frames[i]));
      if reply == Answer("ok") {
        return Some(frames[i]);
      }
      frame := Locate(step, selector, frames, i + 1);
    }

    /** Types a sign-in value into the frame that holds the selector, if its origin is allowed. */
    method TypeCredential(step: nat, selector: string, value: FillValue, text: string) returns (filling: Filling)
      modifies this`now, this`trace
      ensures (filling, State()) == FillCredential(page, old(State()), step, selector, value, text, allowedHosts)
    {
      var frame := Locate(step, selector, page.frames(|trace|), 0);
      if frame.None? {
        return NoFrame;
      }
      var host := frame.value.host;
      if !HostIsAllowed(host, allowedHosts) {
        return Refused(if host == "" then "unknown" else host);
      }
      var _ := EvaluateScript(step, FillJS(selector, value, text), InFrame(frame.value));
      return Filled;
    }

    method PollUntil(step: nat, script: Script, deadline: real) returns (text: string)
      modifies this`now, this`trace
      ensures var r := Poll(page, old(State()), step, script, deadline); text == r.text && State() == r.world
      decreases Retries(State(), deadline)
    {
      ghost var before := State();
      text := SearchFrames(step, script);
      if text == "ok" {
        return;
      }
      if now >= deadline {
        return "timeout";
      }
      ghost var looked := State();
      now := now + RETRY + page.slip(|trace|);
      assert State() == Sleep(page, looked, RETRY);
      RetriesDecrease(before, looked, State(), deadline);
      text := PollUntil(step, script, deadline);
    }

    /** One step; the outcome, if it ends the run. */
    method Step(step: LoginRecipe.Step, index: nat, c: Credentials) returns (stop: Option<Outcome>)
      requires c.allowedHosts == allowedHosts
      modifies this`now, this`trace
      ensures (stop, State()) == RunStep(page, old(State()), c, step, index)
    {
      var text := "ok";
      match step {
        case Click(s) => text := SearchFrames(index, ClickJS(s));
        case Submit(s) => text := SearchFrames(index, SubmitJS(s));
        case Wait(t) => now := now + t + page.slip(|trace|);
        case WaitFor(s, t) => text := PollUntil(index, ExistsJS(s), now + t);
        case ClickText(s, caption, t) => text := PollUntil(index, ClickTextJS(s, caption), now + t);
        case Fill(s, value) =>
          if value.IsSecret() {
            var filling := TypeCredential(index, s, value, Resolve(c, value));
            match filling
            case Filled => return None;
            case NoFrame => return Some(Stalled(index + 1, s));
            case Refused(host) => return Some(OriginRefused(host));
          } else {
            text := SearchFrames(index, FillJS(s, value, Resolve(c, value)));
          }
      }
      if text != "ok" {
        return Some(Stalled(index + 1, Selector(step)));
      }
      return None;
    }

    method Steps(steps: seq<LoginRecipe.Step>, index: nat, c: Credentials) returns (outcome: Outcome)
      requires index <= |steps| && c.allowedHosts == allowedHosts
      modifies this`now, this`trace
      ensures (outcome, State()) == RunFrom(page, old(State()), c, steps, index)
      decreases |steps| - index
    {
      if index == |steps| {
        return Completed;
      }
      var stop := Step(steps[index], index, c);
      if stop.Some? {
        return stop.value;
      }
      outcome := Steps(steps, index + 1, c);
    }

    /** A fresh runner's run is the one RunIsSafe speaks of: what it typed, it typed where it may. */
    method RunRecipe(steps: seq<LoginRecipe.Step>, username: string, secret: string) returns (outcome: Outcome, ghost n: nat, ghost bounds: seq<nat>)
      requires trace == []
      modifies this
      ensures var c := Credentials(username, secret, allowedHosts);
              && (outcome, State()) == Run(page, old(now), c, steps)
              && Safe(page, trace, c) && Explains(outcome, trace, c, steps, n)
              && Follows(page, outcome, trace, c, steps, bounds)
      ensures !active
    {
      var c := Credentials(username, secret, allowedHosts);
      n := RunIsSafe(page, now, c, steps);
      bounds := RunFollows(page, now, c, steps);
      active := true;
      outcome := Steps(steps, 0, c);
      active := false;
    }
  }
}
