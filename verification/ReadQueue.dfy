/**
 The serialized page reads of the browser lane
 (browser-lane-app/Sources/BrowserLaneApp/BrowserViewController.swift): one read owns the
 view at a time, the others wait. Requests, page loads, the settle delay, the timeout and
 the script callbacks arrive as separate main-thread events, in any order.
 */
module ReadQueue {
  import opened Wrappers

  /** A submitted read; number counts submissions, so it tells two equal queries apart. */
  datatype Request = Request(number: nat, query: string)

  datatype ReadResult = Completed(page: string) | Failed(code: string)

  /** A read that was answered, and the read for which the answering script had been started. */
  datatype Answer = Answer(request: Request, result: ReadResult, startedFor: nat)

  /** A script whose callback is still to come. */
  datatype Extraction = Extraction(startedFor: nat, timedOut: bool)

  datatype Reads = Reads(
    activeRead: Option<Request>,
    readQueue: seq<Request>,
    readTimeout: Option<nat>,       // the timer the controller holds on to
    armed: set<nat>,                // the timers that can still fire
    settling: nat,                  // settle delays that are running
    extractions: seq<Extraction>,
    submitted: seq<Request>,
    answered: seq<Answer>)

  datatype Event =
    | Submit(query: string)
    | PageLoaded
    | SettleOver
    | TimerFires(timer: nat)
    | ScriptReturns(index: nat, page: Option<string>)

  type UrlCheck = string -> bool

  // ---- what each handler does to the state

  function Started(valid: UrlCheck, s: Reads): Reads
    decreases |s.readQueue|, 0
  {
    if s.activeRead.Some? || s.readQueue == [] then s
    else
      var next := s.readQueue[0];
      var s' := s.(readQueue := s.readQueue[1..], activeRead := Some(next));
      if !valid(next.query) then Finished(valid, s', Failed("invalid_query"), next.number)
      else s'.(readTimeout := Some(next.number), armed := s'.armed + {next.number})
  }

  function Finished(valid: UrlCheck, s: Reads, result: ReadResult, startedFor: nat): Reads
    decreases |s.readQueue|, 1
  {
    var armed := if s.readTimeout.Some? then s.armed - {s.readTimeout.value} else s.armed;
    var answered := if s.activeRead.Some? then s.answered + [Answer(s.activeRead.value, result, startedFor)] else s.answered;
    Started(valid, s.(armed := armed, readTimeout := None, activeRead := None, answered := answered))
  }

  function Requested(valid: UrlCheck, s: Reads, query: string): Reads {
    var r := Request(|s.submitted|, query);
    Started(valid, s.(readQueue := s.readQueue + [r], submitted := s.submitted + [r]))
  }

  function Extracting(s: Reads, timedOut: bool): Reads {
    if s.activeRead.None? then s
    else s.(extractions := s.extractions + [Extraction(s.activeRead.value.number, timedOut)])
  }

  function Returned(valid: UrlCheck, s: Reads, index: nat, page: Option<string>): Reads
    requires index < |s.extractions|
  {
    var x := s.extractions[index];
    var s' := s.(extractions := s.extractions[..index] + s.extractions[index + 1..]);
    if s'.activeRead.None? then s'
    else
      match page
      case None => Finished(valid, s', Failed(if x.timedOut then "read_timeout" else "extraction_failed"), x.startedFor)
      case Some(text) => Finished(valid, s', Completed(text), x.startedFor)
  }

  predicate Enabled(s: Reads, e: Event) {
    match e
    case SettleOver => s.settling > 0
    case TimerFires(t) => t in s.armed
    case ScriptReturns(i, _) => i < |s.extractions|
    case _ => true
  }

  function Next(valid: UrlCheck, s: Reads, e: Event): Reads
    requires Enabled(s, e)
  {
    match e
    case Submit(query) => Requested(valid, s, query)
    case PageLoaded => if s.activeRead.Some? then s.(settling := s.settling + 1) else s
    case SettleOver => Extracting(s.(settling := s.settling - 1), false)
    case TimerFires(t) => Extracting(s.(armed := s.armed - {t}), true)
    case ScriptReturns(i, page) => Returned(valid, s, i, page)
  }

  const IDLE: Reads := Reads(None, [], None, {}, 0, [], [], [])

  // ---- what every reachable state satisfies

  function Requests(answers: seq<Answer>): (rs: seq<Request>)
    ensures |rs| == |answers|
    ensures forall i :: 0 <= i < |rs| ==> rs[i] == answers[i].request
  {
    seq(|answers|, i requires 0 <= i < |answers| => answers[i].request)
  }

  function ActiveList(s: Reads): seq<Request> {
    if s.activeRead.Some? then [s.activeRead.value] else []
  }

  /** Every submitted read is answered, active or waiting, exactly once and in submission order. */
  ghost predicate Accounted(s: Reads) {
    && s.submitted == Requests(s.answered) + ActiveList(s) + s.readQueue
    && forall i :: 0 <= i < |s.submitted| ==> s.submitted[i].number == i
  }

  /** Only the active read's own timer can fire. */
  ghost predicate TimersOwned(s: Reads) {
    match s.activeRead
    case None => s.armed == {} && s.readTimeout.None?
    case Some(r) => s.readTimeout == Some(r.number) && s.armed <= {r.number}
  }

  /** A read that was refused before loading was refused for its query, and only then. */
  ghost predicate ResultsFit(valid: UrlCheck, s: Reads) {
    && (forall i :: 0 <= i < |s.answered| ==>
          (s.answered[i].result == Failed("invalid_query") <==> !valid(s.answered[i].request.query)))
    && (s.activeRead.Some? ==> valid(s.activeRead.value.query))
  }

  ghost predicate Inv(valid: UrlCheck, s: Reads) {
    && Accounted(s)
    && TimersOwned(s)
    && ResultsFit(valid, s)
    && (s.activeRead.None? ==> s.readQueue == [])
    && (s.activeRead.Some? ==> s.activeRead.value.number in s.armed || s.extractions != [])
    && (forall i :: 0 <= i < |s.extractions| ==> s.extractions[i].startedFor < |s.answered| + |ActiveList(s)|)
  }

  /** Between two reads: everything but an active read is in place. */
  ghost predicate Between(valid: UrlCheck, s: Reads) {
    && s.activeRead.None? && s.readTimeout.None? && s.armed == {}
    && Accounted(s) && ResultsFit(valid, s)
    && (forall i :: 0 <= i < |s.extractions| ==> s.extractions[i].startedFor < |s.answered|)
  }

  lemma {:induction false} StartKeepsInv(valid: UrlCheck, s: Reads)
    requires Between(valid, s)
    ensures var s' := Started(valid, s);
            && Inv(valid, s')
            && s.answered <= s'.answered
            && s'.submitted == s.submitted
            && s'.settling == s.settling
            && s'.extractions == s.extractions
    decreases |s.readQueue|
  {
    if s.readQueue != [] {
      var next := s.readQueue[0];
      var s1 := s.(readQueue := s.readQueue[1..], activeRead := Some(next));
      assert s.readQueue == [next] + s.readQueue[1..];
      if !valid(next.query) {
        var s2 := s1.(activeRead := None, answered := s1.answered + [Answer(next, Failed("invalid_query"), next.number)]);
        assert Requests(s2.answered) == Requests(s.answered) + [next];
        assert s.armed - {next.number} == {};
        assert Finished(valid, s1, Failed("invalid_query"), next.number) == Started(valid, s2);
        StartKeepsInv(valid, s2);
      }
    }
  }

  lemma {:induction false} FinishKeepsInv(valid: UrlCheck, s: Reads, result: ReadResult, startedFor: nat)
    requires s.activeRead.Some? && Accounted(s) && TimersOwned(s) && ResultsFit(valid, s)
    requires forall i :: 0 <= i < |s.extractions| ==> s.extractions[i].startedFor < |s.answered| + 1
    requires result != Failed("invalid_query")
    ensures var s' := Finished(valid, s, result, startedFor);
            && Inv(valid, s')
            && s.answered + [Answer(s.activeRead.value, result, startedFor)] <= s'.answered
            && s'.submitted == s.submitted
            && s'.settling == s.settling
            && s'.extractions == s.extractions
  {
    var r := s.activeRead.value;
    var s1 := s.(armed := s.armed - {r.number}, readTimeout := None, activeRead := None,
                 answered := s.answered + [Answer(r, result, startedFor)]);
    assert Requests(s1.answered) == Requests(s.answered) + [r];
    assert s1.armed == {};
    assert Finished(valid, s, result, startedFor) == Started(valid, s1);
    StartKeepsInv(valid, s1);
  }

  lemma {:induction false} SubmitKeepsInv(valid: UrlCheck, s: Reads, query: string)
    requires Inv(valid, s)
    ensures var s' := Requested(valid, s, query);
            && Inv(valid, s')
            && s.answered <= s'.answered
            && s'.submitted == s.submitted + [Request(|s.submitted|, query)]
  {
    var r := Request(|s.submitted|, query);
    var s1 := s.(readQueue := s.readQueue + [r], submitted := s.submitted + [r]);
    assert s1.submitted == Requests(s1.answered) + ActiveList(s1) + s1.readQueue;
    if s.activeRead.None? {
      StartKeepsInv(valid, s1);
    }
  }

  /** Every event keeps the invariant, and answers, once given, stay. */
  lemma {:induction false} NextKeepsInv(valid: UrlCheck, s: Reads, e: Event)
    requires Inv(valid, s) && Enabled(s, e)
    ensures Inv(valid, Next(valid, s, e))
    ensures s.answered <= Next(valid, s, e).answered
    ensures Next(valid, s, e).submitted == if e.Submit? then s.submitted + [Request(|s.submitted|, e.query)] else s.submitted
  {
    if s.activeRead.Some? {
      assert s.submitted[|s.answered|] == s.activeRead.value;
    }
    match e
    case Submit(query) => SubmitKeepsInv(valid, s, query);
    case PageLoaded =>
    case SettleOver =>
    case TimerFires(t) =>
    case ScriptReturns(i, page) =>
      var s1 := s.(extractions := s.extractions[..i] + s.extractions[i + 1..]);
      var x := s.extractions[i];
      if s.activeRead.Some? {
        var result := match page
          case None => Failed(if x.timedOut then "read_timeout" else "extraction_failed")
          case Some(text) => Completed(text);
        FinishKeepsInv(valid, s1, result, x.startedFor);
      }
  }

  // ---- whole runs

  /** The state after a run of events; an event that cannot happen is passed over. */
  function After(valid: UrlCheck, s: Reads, events: seq<Event>): Reads
    decreases |events|
  {
    if events == [] then s
    else After(valid, if Enabled(s, events[0]) then Next(valid, s, events[0]) else s, events[1..])
  }

  /** The reads a run submits, numbered from n. */
  function Submissions(events: seq<Event>, n: nat): seq<Request> {
    if events == [] then []
    else if events[0].Submit? then [Request(n, events[0].query)] + Submissions(events[1..], n + 1)
    else Submissions(events[1..], n)
  }

  lemma {:induction false} AfterKeepsInv(valid: UrlCheck, s: Reads, events: seq<Event>)
    requires Inv(valid, s)
    ensures var s' := After(valid, s, events);
            && Inv(valid, s')
            && s.answered <= s'.answered
            && s'.submitted == s.submitted + Submissions(events, |s.submitted|)
    decreases |events|
  {
    if events != [] {
      var e := events[0];
      if Enabled(s, e) {
        NextKeepsInv(valid, s, e);
        AfterKeepsInv(valid, Next(valid, s, e), events[1..]);
        if e.Submit? {
          var r := Request(|s.submitted|, e.query);
          assert s.submitted + ([r] + Submissions(events[1..], |s.submitted| + 1))
              == s.submitted + [r] + Submissions(events[1..], |s.submitted| + 1);
        }
      } else {
        AfterKeepsInv(valid, s, events[1..]);
      }
    }
  }

  lemma {:induction false} AnswersAreFirst(valid: UrlCheck, s: Reads)
    requires Inv(valid, s)
    ensures |s.answered| <= |s.submitted|
    ensures Requests(s.answered) == s.submitted[..|s.answered|]
    ensures s.activeRead.None? ==> |s.answered| == |s.submitted|
    ensures s.activeRead.Some? ==> |s.answered| < |s.submitted| && s.activeRead.value == s.submitted[|s.answered|]
    ensures forall i :: 0 <= i < |s.answered| ==> s.answered[i].request.number == i
  {
    assert forall i :: 0 <= i < |s.answered| ==> s.submitted[i] == s.answered[i].request;
  }

  /**
   In every run: the reads answered so far are the first ones submitted, each answered
   once and in order; the one after them is active; the rest wait; only the active read's
   timer can fire, and it is armed unless a script is already on its way.
   */
  lemma {:induction false} EveryRun(valid: UrlCheck, events: seq<Event>)
    ensures var s := After(valid, IDLE, events);
            && Inv(valid, s)
            && s.submitted == Submissions(events, 0)
            && |s.answered| <= |s.submitted|
            && Requests(s.answered) == s.submitted[..|s.answered|]
            && (s.activeRead.None? ==> |s.answered| == |s.submitted|)
            && (s.activeRead.Some? ==> |s.answered| < |s.submitted| && s.activeRead.value == s.submitted[|s.answered|])
            && forall i :: 0 <= i < |s.answered| ==> s.answered[i].request.number == i
  {
    AfterKeepsInv(valid, IDLE, events);
    AnswersAreFirst(valid, After(valid, IDLE, events));
    assert [] + Submissions(events, 0) == Submissions(events, 0);
  }

  /** Once given, an answer is never changed or taken back by what happens later. */
  lemma {:induction false} AnswersStay(valid: UrlCheck, events: seq<Event>, more: seq<Event>)
    ensures After(valid, IDLE, events).answered <= After(valid, IDLE, events + more).answered
  {
    AfterKeepsInv(valid, IDLE, events);
    AfterKeepsInv(valid, After(valid, IDLE, events), more);
    AfterConcat(valid, IDLE, events, more);
  }

  lemma {:induction false} AfterConcat(valid: UrlCheck, s: Reads, events: seq<Event>, more: seq<Event>)
    ensures After(valid, s, events + more) == After(valid, After(valid, s, events), more)
    decreases |events|
  {
    if events == [] {
      assert events + more == more;
    } else {
      assert (events + more)[1..] == events[1..] + more;
      AfterConcat(valid, if Enabled(s, events[0]) then Next(valid, s, events[0]) else s, events[1..], more);
    }
  }

  lemma {:induction false} AfterCons(valid: UrlCheck, s: Reads, e: Event, more: seq<Event>)
    requires Enabled(s, e)
    ensures After(valid, s, [e] + more) == After(valid, Next(valid, s, e), more)
  {
    assert ([e] + more)[1..] == more;
  }

  lemma {:induction false} AfterOne(valid: UrlCheck, s: Reads, e: Event)
    requires Enabled(s, e)
    ensures After(valid, s, [e]) == Next(valid, s, e)
  {
    AfterCons(valid, s, e, []);
    assert [e] + [] == [e];
  }

  // ---- no read is stranded

  function Pending(s: Reads): nat {
    |s.readQueue| + |ActiveList(s)|
  }

  /** The active read's own timer, or a script already under way, is enough to answer it. */
  function Wake(s: Reads): seq<Event>
    requires s.activeRead.Some?
  {
    if s.extractions != [] then [ScriptReturns(0, None)]
    else [TimerFires(s.activeRead.value.number), ScriptReturns(0, None)]
  }

  lemma {:induction false} WakeAnswers(valid: UrlCheck, s: Reads)
    requires Inv(valid, s) && s.activeRead.Some?
    ensures var s' := After(valid, s, Wake(s));
            && Inv(valid, s')
            && |s'.answered| > |s.answered|
            && s'.submitted == s.submitted
            && Pending(s') < Pending(s)
  {
    var back := ScriptReturns(0, None);
    if s.extractions != [] {
      AfterOne(valid, s, back);
      WakeLast(valid, s);
    } else {
      var fires := TimerFires(s.activeRead.value.number);
      NextKeepsInv(valid, s, fires);
      var s1 := Next(valid, s, fires);
      assert Wake(s) == [fires] + [back];
      AfterCons(valid, s, fires, [back]);
      AfterOne(valid, s1, back);
      WakeLast(valid, s1);
    }
  }

  lemma {:induction false} WakeLast(valid: UrlCheck, s: Reads)
    requires Inv(valid, s) && s.activeRead.Some? && s.extractions != []
    ensures var s' := Next(valid, s, ScriptReturns(0, None));
            && Inv(valid, s')
            && |s'.answered| > |s.answered|
            && s'.submitted == s.submitted
            && Pending(s') < Pending(s)
  {
    ReturnAnswers(valid, s, 0, None);
    NextKeepsInv(valid, s, ScriptReturns(0, None));
    var s' := Next(valid, s, ScriptReturns(0, None));
    assert |s'.submitted| == |s'.answered| + Pending(s');
    assert |s.submitted| == |s.answered| + Pending(s);
  }

  /** Any callback answers the read that is active when it comes. */
  lemma {:induction false} ReturnAnswers(valid: UrlCheck, s: Reads, index: nat, page: Option<string>)
    requires Inv(valid, s) && s.activeRead.Some? && index < |s.extractions|
    ensures var s' := Next(valid, s, ScriptReturns(index, page));
            && |s'.answered| > |s.answered|
            && s'.answered[|s.answered|].request == s.activeRead.value
            && s'.answered[|s.answered|].startedFor == s.extractions[index].startedFor
            && s'.submitted == s.submitted
            && (page.Some? ==> s'.answered[|s.answered|].result == Completed(page.value))
  {
    var s1 := s.(extractions := s.extractions[..index] + s.extractions[index + 1..]);
    var x := s.extractions[index];
    var result := match page
      case None => Failed(if x.timedOut then "read_timeout" else "extraction_failed")
      case Some(text) => Completed(text);
    FinishKeepsInv(valid, s1, result, x.startedFor);
    var a := Answer(s.activeRead.value, result, x.startedFor);
    assert (s.answered + [a])[|s.answered|] == a;
  }

  /** From every reachable state, timers and callbacks alone, two events a read, answer everything. */
  lemma {:induction false} EverythingIsAnswered(valid: UrlCheck, s: Reads) returns (events: seq<Event>)
    requires Inv(valid, s)
    ensures |events| <= 2 * Pending(s)
    ensures forall i :: 0 <= i < |events| ==> events[i].TimerFires? || events[i].ScriptReturns?
    ensures var s' := After(valid, s, events);
            s'.submitted == s.submitted && Requests(s'.answered) == s.submitted && s'.activeRead.None?
    decreases Pending(s)
  {
    if s.activeRead.None? {
      events := [];
      assert Requests(s.answered) + [] + [] == Requests(s.answered);
    } else {
      WakeAnswers(valid, s);
      var s' := After(valid, s, Wake(s));
      var more := EverythingIsAnswered(valid, s');
      AfterConcat(valid, s, Wake(s), more);
      events := Wake(s) + more;
    }
  }

  lemma {:induction false} ReturnStartsNext(valid: UrlCheck, s: Reads, page: string)
    requires s.activeRead.Some? && s.readQueue != [] && valid(s.readQueue[0].query)
    requires |s.extractions| == 2
    ensures var s' := Next(valid, s, ScriptReturns(0, Some(page)));
            && s'.activeRead == Some(s.readQueue[0])
            && s'.extractions == [s.extractions[1]]
            && |s'.answered| == |s.answered| + 1
  {
    var x, r := s.extractions[0], s.activeRead.value;
    var armed := if s.readTimeout.Some? then s.armed - {s.readTimeout.value} else s.armed;
    var s2 := s.(extractions := [s.extractions[1]], armed := armed, readTimeout := None, activeRead := None,
                 answered := s.answered + [Answer(r, Completed(page), x.startedFor)]);
    assert s.extractions[..0] + s.extractions[1..] == [s.extractions[1]];
    assert Finished(valid, s.(extractions := [s.extractions[1]]), Completed(page), x.startedFor) == Started(valid, s2);
  }

  /** With two scripts under way for the active read, the second one answers the read after it. */
  lemma {:induction false} SecondScriptAnswersNextRead(valid: UrlCheck, s: Reads, page: string)
    requires Inv(valid, s) && s.activeRead.Some? && s.readQueue != []
    requires valid(s.readQueue[0].query)
    requires |s.extractions| == 2 && s.extractions[1].startedFor == s.activeRead.value.number
    ensures var back := ScriptReturns(0, Some(page));
            var s' := After(valid, s, [back, back]);
            var n := |s.answered|;
            && |s'.answered| > n + 1
            && s'.answered[n + 1].request == s.readQueue[0]
            && s'.answered[n + 1].startedFor == s.activeRead.value.number != s.readQueue[0].number
  {
    var back := ScriptReturns(0, Some(page));
    var s1 := Next(valid, s, back);
    ReturnAnswers(valid, s, 0, Some(page));
    NextKeepsInv(valid, s, back);
    ReturnStartsNext(valid, s, page);
    assert s.submitted[|s.answered|] == s.activeRead.value && s.submitted[|s.answered| + 1] == s.readQueue[0];
    ReturnAnswers(valid, s1, 0, Some(page));
    AfterCons(valid, s, back, [back]);
    AfterOne(valid, s1, back);
    assert [back] + [back] == [back, back];
  }

  /** Such states occur: the timeout and a finished load each start a script. */
  lemma {:induction false} TwoScriptsCanBeUnderWay(valid: UrlCheck, s: Reads)
    requires Inv(valid, s) && s.activeRead.Some? && s.extractions == [] && s.settling == 0
    ensures var r := s.activeRead.value;
            var s' := After(valid, s, [TimerFires(r.number), PageLoaded, SettleOver]);
            && s'.activeRead == s.activeRead && s'.readQueue == s.readQueue
            && s'.extractions == [Extraction(r.number, true), Extraction(r.number, false)]
  {
    var fires := TimerFires(s.activeRead.value.number);
    var s1 := Next(valid, s, fires);
    var s2 := Next(valid, s1, PageLoaded);
    AfterCons(valid, s, fires, [PageLoaded, SettleOver]);
    AfterCons(valid, s1, PageLoaded, [SettleOver]);
    AfterOne(valid, s2, SettleOver);
    assert [fires] + [PageLoaded, SettleOver] == [fires, PageLoaded, SettleOver];
    assert [PageLoaded] + [SettleOver] == [PageLoaded, SettleOver];
  }

  // ---- failures

  /** A script that brings no page back fails the active read: as a timeout if the timer started it. */
  lemma {:induction false} NoPageFails(valid: UrlCheck, s: Reads, index: nat)
    requires Inv(valid, s) && s.activeRead.Some? && index < |s.extractions|
    ensures var s' := Next(valid, s, ScriptReturns(index, None));
            && |s'.answered| > |s.answered|
            && s'.answered[|s.answered|].request == s.activeRead.value
            && (s.extractions[index].timedOut ==> s'.answered[|s.answered|].result == Failed("read_timeout"))
            && (!s.extractions[index].timedOut ==> s'.answered[|s.answered|].result == Failed("extraction_failed"))
  {
    var s1 := s.(extractions := s.extractions[..index] + s.extractions[index + 1..]);
    var x := s.extractions[index];
    var result := Failed(if x.timedOut then "read_timeout" else "extraction_failed");
    FinishKeepsInv(valid, s1, result, x.startedFor);
    var a := Answer(s.activeRead.value, result, x.startedFor);
    assert (s.answered + [a])[|s.answered|] == a;
  }

  /** Which scripts are timeouts: the timer's, and not those a loaded page brings about; without an active read there are none. */
  lemma {:induction false} ScriptsStarted(valid: UrlCheck, s: Reads, e: Event)
    requires Enabled(s, e) && (e.TimerFires? || e.SettleOver? || e.PageLoaded?)
    ensures var s' := Next(valid, s, e);
            && s'.answered == s.answered && s'.activeRead == s.activeRead && s'.readQueue == s.readQueue
            && s'.extractions == s.extractions + (if s.activeRead.None? || e.PageLoaded? then []
                                                  else [Extraction(s.activeRead.value.number, e.TimerFires?)])
            && s'.settling == s.settling + (if e.SettleOver? then -1 else if e.PageLoaded? && s.activeRead.Some? then 1 else 0)
  {
  }

  /** A callback that comes when no read is active is dropped. */
  lemma {:induction false} LateCallbackIsDropped(valid: UrlCheck, s: Reads, index: nat, page: Option<string>)
    requires s.activeRead.None? && index < |s.extractions|
    ensures Next(valid, s, ScriptReturns(index, page)) == s.(extractions := s.extractions[..index] + s.extractions[index + 1..])
  {
  }

  // ---- whose script answers a read

  /** Every answer came from a script that was started for the very read it answers. */
  ghost predicate OwnAnswers(answers: seq<Answer>) {
    forall i :: 0 <= i < |answers| ==> answers[i].startedFor == answers[i].request.number
  }

  /** The callback of a script that was started for another read than the one now active. */
  predicate Foreign(s: Reads, e: Event) {
    && e.ScriptReturns? && e.index < |s.extractions| && s.activeRead.Some?
    && s.extractions[e.index].startedFor != s.activeRead.value.number
  }

  /** No callback of a run meets an active read that its script was not started for. */
  ghost predicate NoForeign(valid: UrlCheck, s: Reads, events: seq<Event>)
    decreases |events|
  {
    events == [] ||
    (!Foreign(s, events[0])
     && NoForeign(valid, if Enabled(s, events[0]) then Next(valid, s, events[0]) else s, events[1..]))
  }

  lemma {:induction false} OwnAnswersAppend(answers: seq<Answer>, a: Answer)
    ensures OwnAnswers(answers + [a]) <==> OwnAnswers(answers) && a.startedFor == a.request.number
  {
    if OwnAnswers(answers + [a]) {
      assert (answers + [a])[|answers|] == a;
      forall i | 0 <= i < |answers| ensures answers[i].startedFor == answers[i].request.number {
        assert (answers + [a])[i] == answers[i];
      }
    }
  }

  /** Reads refused on the way to the next one are answered as their own. */
  lemma {:induction false} StartAnswersOwn(valid: UrlCheck, s: Reads)
    ensures OwnAnswers(Started(valid, s).answered) <==> OwnAnswers(s.answered)
    decreases |s.readQueue|, 0
  {
    if s.activeRead.None? && s.readQueue != [] {
      var next := s.readQueue[0];
      var s1 := s.(readQueue := s.readQueue[1..], activeRead := Some(next));
      if !valid(next.query) {
        FinishAnswersOwn(valid, s1, Failed("invalid_query"), next.number);
      }
    }
  }

  lemma {:induction false} FinishAnswersOwn(valid: UrlCheck, s: Reads, result: ReadResult, startedFor: nat)
    requires s.activeRead.Some?
    ensures OwnAnswers(Finished(valid, s, result, startedFor).answered)
       <==> OwnAnswers(s.answered) && startedFor == s.activeRead.value.number
    decreases |s.readQueue|, 1
  {
    var armed := if s.readTimeout.Some? then s.armed - {s.readTimeout.value} else s.armed;
    var a := Answer(s.activeRead.value, result, startedFor);
    var s1 := s.(armed := armed, readTimeout := None, activeRead := None, answered := s.answered + [a]);
    OwnAnswersAppend(s.answered, a);
    StartAnswersOwn(valid, s1);
  }

  lemma {:induction false} NextAnswersOwn(valid: UrlCheck, s: Reads, e: Event)
    requires Enabled(s, e)
    ensures OwnAnswers(Next(valid, s, e).answered) <==> OwnAnswers(s.answered) && !Foreign(s, e)
  {
    match e
    case Submit(query) =>
      var r := Request(|s.submitted|, query);
      StartAnswersOwn(valid, s.(readQueue := s.readQueue + [r], submitted := s.submitted + [r]));
    case ScriptReturns(i, page) =>
      var x := s.extractions[i];
      if s.activeRead.Some? {
        var result := match page
          case None => Failed(if x.timedOut then "read_timeout" else "extraction_failed")
          case Some(text) => Completed(text);
        FinishAnswersOwn(valid, s.(extractions := s.extractions[..i] + s.extractions[i + 1..]), result, x.startedFor);
      }
    case _ =>
  }

  lemma {:induction false} AnswersOwnFrom(valid: UrlCheck, s: Reads, events: seq<Event>)
    ensures OwnAnswers(After(valid, s, events).answered) <==> OwnAnswers(s.answered) && NoForeign(valid, s, events)
    decreases |events|
  {
    if events != [] {
      var e := events[0];
      if Enabled(s, e) {
        NextAnswersOwn(valid, s, e);
        AnswersOwnFrom(valid, Next(valid, s, e), events[1..]);
      } else {
        AnswersOwnFrom(valid, s, events[1..]);
      }
    }
  }

  /**
   In every run, each read is answered by a script of its own exactly when no callback
   comes while a read is active that its script was not started for.
   */
  lemma {:induction false} AnswersAreOwn(valid: UrlCheck, events: seq<Event>)
    ensures OwnAnswers(After(valid, IDLE, events).answered) <==> NoForeign(valid, IDLE, events)
  {
    AnswersOwnFrom(valid, IDLE, events);
  }

  /** Every callback of a run comes while its script is the only one under way. */
  ghost predicate OneScriptAtATime(valid: UrlCheck, s: Reads, events: seq<Event>)
    decreases |events|
  {
    events == [] ||
    ((events[0].ScriptReturns? && Enabled(s, events[0]) ==> |s.extractions| == 1)
     && OneScriptAtATime(valid, if Enabled(s, events[0]) then Next(valid, s, events[0]) else s, events[1..]))
  }

  /** All scripts under way were started for the active read; without one there are none. */
  ghost predicate ScriptsOwned(s: Reads) {
    AllFor(s.extractions, s.activeRead)
  }

  ghost predicate AllFor(extractions: seq<Extraction>, read: Option<Request>) {
    forall i :: 0 <= i < |extractions| ==> read.Some? && extractions[i].startedFor == read.value.number
  }

  lemma {:induction false} StartKeepsScripts(valid: UrlCheck, s: Reads)
    ensures Started(valid, s).extractions == s.extractions
    ensures s.activeRead.Some? ==> Started(valid, s).activeRead == s.activeRead
    decreases |s.readQueue|, 0
  {
    if s.activeRead.None? && s.readQueue != [] && !valid(s.readQueue[0].query) {
      FinishKeepsScripts(valid, s.(readQueue := s.readQueue[1..], activeRead := Some(s.readQueue[0])),
                         Failed("invalid_query"), s.readQueue[0].number);
    }
  }

  lemma {:induction false} FinishKeepsScripts(valid: UrlCheck, s: Reads, result: ReadResult, startedFor: nat)
    requires s.activeRead.Some?
    ensures Finished(valid, s, result, startedFor).extractions == s.extractions
    decreases |s.readQueue|, 1
  {
    var armed := if s.readTimeout.Some? then s.armed - {s.readTimeout.value} else s.armed;
    var a := Answer(s.activeRead.value, result, startedFor);
    StartKeepsScripts(valid, s.(armed := armed, readTimeout := None, activeRead := None, answered := s.answered + [a]));
  }

  lemma {:induction false} NextKeepsScriptsOwned(valid: UrlCheck, s: Reads, e: Event)
    requires ScriptsOwned(s) && Enabled(s, e)
    requires e.ScriptReturns? ==> |s.extractions| == 1
    ensures ScriptsOwned(Next(valid, s, e)) && !Foreign(s, e)
  {
    match e
    case Submit(query) =>
      var r := Request(|s.submitted|, query);
      StartKeepsScripts(valid, s.(readQueue := s.readQueue + [r], submitted := s.submitted + [r]));
    case ScriptReturns(i, page) =>
      var x := s.extractions[i];
      var s1 := s.(extractions := s.extractions[..i] + s.extractions[i + 1..]);
      assert s1.extractions == [];
      var result := match page
        case None => Failed(if x.timedOut then "read_timeout" else "extraction_failed")
        case Some(text) => Completed(text);
      FinishKeepsScripts(valid, s1, result, x.startedFor);
    case SettleOver => ExtractingKeepsScripts(s.(settling := s.settling - 1), false);
    case TimerFires(timer) => ExtractingKeepsScripts(s.(armed := s.armed - {timer}), true);
    case PageLoaded =>
  }

  lemma {:induction false} ExtractingKeepsScripts(s: Reads, timedOut: bool)
    requires ScriptsOwned(s)
    ensures ScriptsOwned(Extracting(s, timedOut))
  {
  }

  lemma {:induction false} OneScriptNoForeign(valid: UrlCheck, s: Reads, events: seq<Event>)
    requires ScriptsOwned(s) && OneScriptAtATime(valid, s, events)
    ensures NoForeign(valid, s, events)
    decreases |events|
  {
    if events != [] {
      var e := events[0];
      if Enabled(s, e) {
        NextKeepsScriptsOwned(valid, s, e);
        OneScriptNoForeign(valid, Next(valid, s, e), events[1..]);
      } else {
        OneScriptNoForeign(valid, s, events[1..]);
      }
    }
  }

  /** When scripts never overlap, every answer is the read's own. */
  lemma {:induction false} SingleScriptsAnswerTheirOwn(valid: UrlCheck, events: seq<Event>)
    requires OneScriptAtATime(valid, IDLE, events)
    ensures OwnAnswers(After(valid, IDLE, events).answered)
  {
    OneScriptNoForeign(valid, IDLE, events);
    AnswersAreOwn(valid, events);
  }

  /** Two reads submitted; the timeout and a late load each start a script for the first. */
  function TwoScripts(a: string, b: string): Reads {
    Reads(Some(Request(0, a)), [Request(1, b)], Some(0), {}, 0, [Extraction(0, true), Extraction(0, false)],
          [Request(0, a), Request(1, b)], [])
  }

  lemma {:induction false} TwoScriptsFromTheStart(valid: UrlCheck, a: string, b: string, more: seq<Event>)
    requires valid(a) && valid(b)
    ensures After(valid, IDLE, [Submit(a)] + ([Submit(b)] + ([TimerFires(0)] + ([PageLoaded] + ([SettleOver] + more)))))
         == After(valid, TwoScripts(a, b), more)
  {
    var s1 := Reads(Some(Request(0, a)), [], Some(0), {0}, 0, [], [Request(0, a)], []);
    var s2 := s1.(readQueue := [Request(1, b)], submitted := [Request(0, a), Request(1, b)]);
    var s3 := s2.(armed := {}, extractions := [Extraction(0, true)]);
    assert {0} - {0} == {};
    var t4 := [SettleOver] + more;
    var t3 := [PageLoaded] + t4;
    var t2 := [TimerFires(0)] + t3;
    AfterStep(valid, IDLE, Submit(a), s1, [Submit(b)] + t2);
    AfterStep(valid, s1, Submit(b), s2, t2);
    AfterStep(valid, s2, TimerFires(0), s3, t3);
    AfterStep(valid, s3, PageLoaded, s3.(settling := 1), t4);
    AfterStep(valid, s3.(settling := 1), SettleOver, TwoScripts(a, b), more);
  }

  lemma {:induction false} BothScriptsReturn(valid: UrlCheck, a: string, b: string, page: string)
    requires valid(a) && valid(b)
    ensures var back := ScriptReturns(0, Some(page));
            After(valid, TwoScripts(a, b), [back] + [back]).answered
            == [Answer(Request(0, a), Completed(page), 0), Answer(Request(1, b), Completed(page), 0)]
  {
    var back := ScriptReturns(0, Some(page));
    var s, y := TwoScripts(a, b), Extraction(0, false);
    var s' := Reads(Some(Request(1, b)), [], Some(1), {1}, 0, [y], s.submitted, [Answer(Request(0, a), Completed(page), 0)]);
    assert s.extractions[..0] + s.extractions[1..] == [y];
    ReturnStep(valid, s, [y], page, s');
    AfterStep(valid, s, back, s', [back]);
    AfterOne(valid, s', back);
    LastReturn(valid, s', page);
  }

  /** From the start of a run: the timeout and a late load of one read end up answering two. */
  lemma {:induction false} LateScriptAnswersNextRead(valid: UrlCheck, a: string, b: string, page: string)
    requires valid(a) && valid(b)
    ensures var back := ScriptReturns(0, Some(page));
            var events := [Submit(a), Submit(b), TimerFires(0), PageLoaded, SettleOver, back, back];
            After(valid, IDLE, events).answered
            == [Answer(Request(0, a), Completed(page), 0), Answer(Request(1, b), Completed(page), 0)]
  {
    var back := ScriptReturns(0, Some(page));
    TwoScriptsFromTheStart(valid, a, b, [back] + [back]);
    BothScriptsReturn(valid, a, b, page);
    assert [Submit(a)] + ([Submit(b)] + ([TimerFires(0)] + ([PageLoaded] + ([SettleOver] + ([back] + [back])))))
        == [Submit(a), Submit(b), TimerFires(0), PageLoaded, SettleOver, back, back];
  }

  /** The callback when no read waits. */
  lemma {:induction false} LastReturn(valid: UrlCheck, s: Reads, page: string)
    requires s.activeRead.Some? && s.readQueue == [] && s.extractions != []
    ensures Next(valid, s, ScriptReturns(0, Some(page))).answered
         == s.answered + [Answer(s.activeRead.value, Completed(page), s.extractions[0].startedFor)]
  {
    var others, a := s.extractions[..0] + s.extractions[1..], Answer(s.activeRead.value, Completed(page), s.extractions[0].startedFor);
    var armed := if s.readTimeout.Some? then s.armed - {s.readTimeout.value} else s.armed;
    var s1 := s.(extractions := others, armed := armed, readTimeout := None, activeRead := None, answered := s.answered + [a]);
    assert Finished(valid, s.(extractions := others), Completed(page), a.startedFor) == Started(valid, s1) == s1;
  }

  lemma {:induction false} AfterStep(valid: UrlCheck, s: Reads, e: Event, s': Reads, more: seq<Event>)
    requires Enabled(s, e) && Next(valid, s, e) == s'
    ensures After(valid, s, [e] + more) == After(valid, s', more)
  {
    AfterCons(valid, s, e, more);
  }

  /** The first callback, when a valid read waits behind the active one. */
  lemma {:induction false} ReturnStep(valid: UrlCheck, s: Reads, others: seq<Extraction>, page: string, s': Reads)
    requires s.activeRead.Some? && s.readQueue != [] && valid(s.readQueue[0].query)
    requires s.extractions != [] && s.extractions[..0] + s.extractions[1..] == others
    requires s.readTimeout.Some? && s.armed - {s.readTimeout.value} == {}
    requires var next := s.readQueue[0];
             s' == Reads(Some(next), s.readQueue[1..], Some(next.number), {next.number}, s.settling, others, s.submitted,
                         s.answered + [Answer(s.activeRead.value, Completed(page), s.extractions[0].startedFor)])
    ensures Next(valid, s, ScriptReturns(0, Some(page))) == s'
  {
    var s1 := s.(extractions := others, armed := {}, readTimeout := None, activeRead := None, answered := s'.answered);
    assert Finished(valid, s.(extractions := others), Completed(page), s.extractions[0].startedFor) == Started(valid, s1);
    assert {} + {s'.activeRead.value.number} == s'.armed;
  }

  // ---- the controller

  class BrowserController {
    const valid: UrlCheck
    var activeRead: Option<Request>
    var readQueue: seq<Request>
    var readTimeout: Option<nat>
    var armed: set<nat>
    var settling: nat
    var extractions: seq<Extraction>
    ghost var submitted: seq<Request>
    ghost var answered: seq<Answer>
    var nextNumber: nat

    ghost function State(): Reads
      reads this
    {
      Reads(activeRead, readQueue, readTimeout, armed, settling, extractions, submitted, answered)
    }

    ghost predicate Valid()
      reads this
    {
      Inv(valid, State()) && nextNumber == |submitted|
    }

    constructor (valid: UrlCheck)
      ensures Valid() && State() == IDLE && this.valid == valid
    {
      this.valid := valid;
      activeRead, readQueue, readTimeout, armed := None, [], None, {};
      settling, extractions, submitted, answered, nextNumber := 0, [], [], [], 0;
    }

    method PerformRead(query: string)
      requires Valid()
      modifies this
      ensures Valid() && State() == Requested(valid, old(State()), query)
    {
      SubmitKeepsInv(valid, State(), query);
      var r := Request(nextNumber, query);
      nextNumber := nextNumber + 1;
      readQueue := readQueue + [r];
      submitted := submitted + [r];
      StartNextReadIfIdle();
    }

    method StartNextReadIfIdle()
      modifies this
      ensures State() == Started(valid, old(State()))
      ensures nextNumber == old(nextNumber)
      decreases |readQueue|, 0
    {
      if activeRead.Some? || readQueue == [] {
        return;
      }
      var next := readQueue[0];
      readQueue := readQueue[1..];
      activeRead := Some(next);
      if !valid(next.query) {
        FinishRead(Failed("invalid_query"), next.number);
        return;
      }
      readTimeout := Some(next.number);
      armed := armed + {next.number};
    }

    method FinishRead(result: ReadResult, ghost startedFor: nat)
      modifies this
      ensures State() == Finished(valid, old(State()), result, startedFor)
      ensures nextNumber == old(nextNumber)
      decreases |readQueue|, 1
    {
      if readTimeout.Some? {
        armed := armed - {readTimeout.value};
      }
      readTimeout := None;
      if activeRead.Some? {
        answered := answered + [Answer(activeRead.value, result, startedFor)];
      }
      activeRead := None;
      StartNextReadIfIdle();
    }

    method ExtractActiveRead(timedOut: bool)
      modifies this
      ensures State() == Extracting(old(State()), timedOut)
      ensures nextNumber == old(nextNumber)
    {
      if activeRead.Some? {
        extractions := extractions + [Extraction(activeRead.value.number, timedOut)];
      }
    }

    method DidFinishNavigation()
      requires Valid()
      modifies this
      ensures Valid() && State() == Next(valid, old(State()), PageLoaded)
    {
      NextKeepsInv(valid, State(), PageLoaded);
      if activeRead.Some? {
        settling := settling + 1;
      }
    }

    method SettleDelayOver()
      requires Valid() && settling > 0
      modifies this
      ensures Valid() && State() == Next(valid, old(State()), SettleOver)
    {
      NextKeepsInv(valid, State(), SettleOver);
      settling := settling - 1;
      ExtractActiveRead(false);
    }

    method TimeoutFired(timer: nat)
      requires Valid() && timer in armed
      modifies this
      ensures Valid() && State() == Next(valid, old(State()), TimerFires(timer))
    {
      NextKeepsInv(valid, State(), TimerFires(timer));
      armed := armed - {timer};
      ExtractActiveRead(true);
    }

    method ScriptReturned(index: nat, page: Option<string>)
      requires Valid() && index < |extractions|
      modifies this
      ensures Valid() && State() == Next(valid, old(State()), ScriptReturns(index, page))
    {
      NextKeepsInv(valid, State(), ScriptReturns(index, page));
      var x := extractions[index];
      extractions := extractions[..index] + extractions[index + 1..];
      if activeRead.None? {
        return;
      }
      match page
      case None => FinishRead(Failed(if x.timedOut then "read_timeout" else "extraction_failed"), x.startedFor);
      case Some(text) => FinishRead(Completed(text), x.startedFor);
    }
  }
}
