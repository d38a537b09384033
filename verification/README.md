# HiveMatrix: verified models of its stateful and textual cores

This project models the parts of HiveMatrix whose correctness does not show in any one
function body, and proves what they promise over every input, every run or every
reachable state. Each component is one module:

- `CanonicalJson`, `SignedBytes`: the canonical JSON text that licence signatures cover,
  and its UTF-8 bytes. A decoder recovers the key-sorted value from the text, so the
  signed bytes decide the value up to key order. Strings are sequences of 16-bit code
  units (sections 3 and 7 of RFC 8259; UTF-8 as in section 3 of RFC 3629).
- `SentenceStream`: the chunker that starts speaking a reply while it still streams in,
  compared with chunking the whole reply at once.
- `LoginRecipe`: the line format of sign-in recipes, its parser and its printer.
- `LoginHosts`, `LoginRunner`: which frames a sign-in may be typed into, the table of live
  frames, and the step engine run against an arbitrary page.
- `ReadQueue`: the page reads that share one web view, as a protocol over main-thread
  events in any order.
- `AccessTree`: the bounded walk over an accessibility tree and the paths into it.
- `Vad`, `LiveLoop`: the voice-activity hysteresis machine and the hands-free turn loop.
- `LaneHttp`: the incremental HTTP request parser of the loopback server.
- `HomePath`: project paths confined to the home directory, over POSIX path resolution.
- `SiteIds`: slugs and fresh ids for copied sites.
- `DueDate`: due times of spoken reminders, over a proleptic Gregorian calendar.
- `Wrappers`, `Decimals`, `Text`: options, results, decimal notation, splitting, joining
  and stripping, shared by the others.

Where the source updates state step by step, the model is a class or a method with loops.
Its contract gives the new state as a function of the old one, and the lemmas about that
function say what whole runs keep. The frame table, the read queue, the turn loop, the
voice-activity machine, the tree reader, the login engine and the receive loop are classes.

Every lemma switches automatic induction off, so each proof is the one that is written
out. In Dafny 4.11 the automatic hypothesis also speaks of ill-typed values, and false
statements about sequences can pass with it.

Some promises hold only on a part of the inputs. For each of these a lemma says exactly
when it holds, and another gives an input or a run for which it does not:

- A recipe printed and parsed again is the same recipe exactly when all waits are whole
  seconds and no default-timeout `waitFor` has a several-token selector that ends in a
  number (`LoginRecipe.RoundTrip`, `DefaultTimeoutIsLost`). The comment on `serialized`
  claims the round trip without condition.
- Streaming and batch chunking agree exactly when no token break is harmful
  (`SentenceStream.StreamingAgreesWithWhole`, `StreamingCanSplitARun`).
- The comment at `voice-sidecar/streaming.py:13` says a point is no boundary *between*
  digits; the expression rejects a point with a digit on *either* side. The model follows
  the expression, says when a text has no sentence end (`SentenceStream.NoSentenceEnd`),
  and says exactly when comment and code find the same one (`CommentAgrees`); "I have 3."
  parts them (`PointAfterDigit`).
- Every read is answered by a script of its own exactly when no script's callback comes
  while another read is active (`ReadQueue.AnswersAreOwn`); the timeout and a late load of
  one read end up answering two (`LateScriptAnswersNextRead`).
- An interruption is handed over exactly when the segmenter, cleared by it, closes a segment
  of its own (`LiveLoop.InterruptionEnds`); four loud frames and then silence are captured
  as long as the silence lasts (`BriefInterruptionStays`).
- A due time without a settled day is ahead exactly unless a day of the month is named that
  has passed and that the next month lacks, and which is not yesterday with a time of day
  still to come (`DueDate.UnsettledIsAhead`); "the 30th at 9" said on 31 January at 10 is
  past (`ThirtiethOnTheLast`).
- A date with its year is kept exactly unless it is 29 February in a common current year
  (`DueDate.NamedYearIsKept`, `LeapDayIsLost`).
- Paths at or below home are accepted exactly when home is not the root
  (`HomePath.AcceptedExactly`, `RootHomeAcceptsNothing`).
- UTF-8 loses nothing on canonical text (`SignedBytes.SignedBytesDecide`), though it does
  on text with lone surrogates (`Utf8ConfusesLoneSurrogates`).

Two smaller differences between text and code: the comment at
`BrowserLaneLoginRecipe.swift:5-7` speaks of four verbs and there are six, and
`missingSelector` can never be reported for `clickText` (`LoginRecipe.ParseClickTextParsable`).

## Model

| member | source | states |
|---|---|---|
| CanonicalJson.CanonicalDecides | license-service/lib/signing.ts:11-18 | two values print the same text if and only if they are equal up to the order of object keys at every depth |
| CanonicalJson.DecodeCanonical | license-service/lib/signing.ts:11-18 | a decoder reads the printed text, followed by anything that cannot continue a number, back to the key-sorted value and leaves the rest |
| CanonicalJson.DecodeString | license-service/lib/signing.ts:15-17 | escaping and quoting a string, lone surrogates included, is undone by the decoder |
| CanonicalJson.SameKeySorted | license-service/lib/signing.ts:14 | equality up to key order is equality of the key-sorted values |
| CanonicalJson.CanonicalOfKeySorted | license-service/lib/signing.ts:14-15 | the text depends on the key-sorted value alone |
| CanonicalJson.SortKeysDecides | license-service/lib/signing.ts:14 | two sets of distinct keys have the same sorted list exactly when they have the same members |
| CanonicalJson.SortInUnitOrder | license-service/lib/signing.ts:14 | sorted keys are the same keys, each before the next at the first code unit where the two differ, or where it ends |
| CanonicalJson.PrintedKeysInOrder | license-service/lib/signing.ts:11-18 | the printed text, read again to its end, has its keys in that order at every depth |
| CanonicalJson.EscapeLengths | license-service/lib/signing.ts:15-17 | seven characters have escapes of two characters, other controls and surrogates of six, and every other character stands for itself |
| CanonicalJson.SpelledLiterals | license-service/lib/signing.ts:17 | how constants, numbers and empty lists and objects are spelled |
| CanonicalJson.SpelledStrings | license-service/lib/signing.ts:15-17 | how a string and each kind of escape is spelled, code unit by code unit |
| CanonicalJson.SpelledPair | license-service/lib/signing.ts:12 | how a list of two is spelled |
| CanonicalJson.SpelledObject | license-service/lib/signing.ts:13-16 | how an object of two is spelled: whatever order its members come in, the key that comes before is printed first |
| SignedBytes.SignedBytesDecide | license-service/lib/signing.ts:20-23 | two licence values are signed over the same bytes if and only if they are the same value up to key order |
| SignedBytes.EscapedIsSame | license-service/lib/signing.ts:15-17 | a string is printed as it stands if and only if its surrogates are paired and it holds no control character, quote or backslash |
| SignedBytes.CanonicalPaired | license-service/lib/signing.ts:11-21 | canonical text holds surrogates only in pairs, whatever strings the value holds |
| SignedBytes.EncodedExamples | license-service/lib/signing.ts:21 | the examples of section 7 of RFC 3629 are encoded as given there |
| SignedBytes.Utf8Injective | license-service/lib/signing.ts:21 | UTF-8 encoding loses nothing on text with paired surrogates |
| SignedBytes.Utf8ConfusesLoneSurrogates | license-service/lib/signing.ts:21 | on other text it does: the escapes are needed |
| SentenceStream.IterSentences | voice-sidecar/streaming.py:30-55 | the generator loop yields exactly the specified chunks and its inner loop ends |
| SentenceStream.StreamingAgreesWithWhole | voice-sidecar/streaming.py:15-55 | for every tokenisation, in eager and plain mode, the chunks are those of the whole reply if and only if no break between tokens is harmful |
| SentenceStream.StreamingCanSplitARun | voice-sidecar/streaming.py:15-55 | splitting a run of end marks over two tokens changes what is spoken |
| SentenceStream.NothingLost | voice-sidecar/streaming.py:39-55 | the reply is white space, first chunk, white space, second chunk, and so on: nothing lost, added or reordered |
| SentenceStream.ChunksWellEnded | voice-sidecar/streaming.py:20-27 | only the first chunk may end at a clause mark, and only in eager mode; only the last may end anywhere |
| SentenceStream.CutEnds | voice-sidecar/streaming.py:20-27 | a cut is at a sentence end, or, eagerly, at a clause mark past the minimum length with no boundary beginning before it |
| SentenceStream.DrainLeavesNoCut | voice-sidecar/streaming.py:43-50 | after each token the retained text holds no further cut |
| SentenceStream.CutStable | voice-sidecar/streaming.py:15-27 | text that arrives later moves no cut, unless the break before it is harmful |
| SentenceStream.HarmfulMovesCut | voice-sidecar/streaming.py:15-27 | after a harmful break the cut at the end of the text is not the one the whole text has |
| SentenceStream.SentenceEndExactly | voice-sidecar/streaming.py:15 | a sentence ends exactly where the leftmost and longest match of the expression does |
| SentenceStream.EagerCutExactly | voice-sidecar/streaming.py:20-27 | in eager mode with enough text, the cut is just after the first clause mark from the minimum length on if and only if no sentence mark stands before it, and otherwise at the sentence end |
| SentenceStream.PlainCut | voice-sidecar/streaming.py:20-27 | in plain mode, with too little text or without such a clause mark, the cut is the sentence end |
| SentenceStream.ChunksExactly | voice-sidecar/streaming.py:30-55 | for every harmless tokenisation the chunks are the text up to its first cut, stripped, and then those of the rest in plain mode; without a cut, the stripped text if any is left |
| SentenceStream.EagerFirstChunk | voice-sidecar/streaming.py:20-50 | an eager reply with no sentence mark before that clause mark is first spoken up to the clause mark |
| SentenceStream.NoSentenceEnd | voice-sidecar/streaming.py:15 | a text has no sentence end if and only if its only end marks are points with a digit on either side |
| SentenceStream.CommentAgrees | voice-sidecar/streaming.py:13-15 | expression and comment find the same sentence end if and only if the last mark of the match by the comment is one for the expression |
| SentenceStream.PointAfterDigit | voice-sidecar/streaming.py:13-15 | "I have 3." has no sentence end, though it would by the comment |
| LoginRecipe.Parse | browser-lane-app/Sources/BrowserLaneApp/BrowserLaneLoginRecipe.swift:105-177 | the parsing loop gives the specified steps or the specified error |
| LoginRecipe.FirstFault | browser-lane-app/Sources/BrowserLaneApp/BrowserLaneLoginRecipe.swift:105-177 | a recipe is its lines' steps in order; it is refused exactly when a line is wrong, for the first such line, which the error names |
| LoginRecipe.SaysNothing | browser-lane-app/Sources/BrowserLaneApp/BrowserLaneLoginRecipe.swift:107-110 | a line says nothing if and only if it is blank or its first character other than a space is '#' |
| LoginRecipe.WrittenIsRead | browser-lane-app/Sources/BrowserLaneApp/BrowserLaneLoginRecipe.swift:108-115 | a line of spaces, verb, spaces, rest and spaces is read as that verb with that rest |
| LoginRecipe.ClickMeans | browser-lane-app/Sources/BrowserLaneApp/BrowserLaneLoginRecipe.swift:115-118 | the rest of a click or submit, in any letter case, is its selector |
| LoginRecipe.WaitForMeans | browser-lane-app/Sources/BrowserLaneApp/BrowserLaneLoginRecipe.swift:120-133 | a last word that reads as a number is the timeout if in (0, 120] and refused otherwise; without one all of the rest is the selector and the timeout is 15 |
| LoginRecipe.WaitMeans | browser-lane-app/Sources/BrowserLaneApp/BrowserLaneLoginRecipe.swift:135-139 | a pause is a number in (0, 120], and refused otherwise |
| LoginRecipe.ClickTextMeans | browser-lane-app/Sources/BrowserLaneApp/BrowserLaneLoginRecipe.swift:141-154 | the first word is the selector and everything after one space the label |
| LoginRecipe.FillMeans | browser-lane-app/Sources/BrowserLaneApp/BrowserLaneLoginRecipe.swift:156-170 | the last word is the value, a placeholder or literal, and the words before it the selector; one word alone misses a value |
| LoginRecipe.RestMissing | browser-lane-app/Sources/BrowserLaneApp/BrowserLaneLoginRecipe.swift:116-171 | which error each verb gives when nothing follows it |
| LoginRecipe.VerbUnknown | browser-lane-app/Sources/BrowserLaneApp/BrowserLaneLoginRecipe.swift:172-173 | every other verb is refused by name |
| LoginRecipe.PrintedVerbs | browser-lane-app/Sources/BrowserLaneApp/BrowserLaneLoginRecipe.swift:180-190 | how each verb is printed, with the spaces after it |
| LoginRecipe.PrintedArguments | browser-lane-app/Sources/BrowserLaneApp/BrowserLaneLoginRecipe.swift:180-190 | what is printed after each verb |
| LoginRecipe.PrintedSeconds | browser-lane-app/Sources/BrowserLaneApp/BrowserLaneLoginRecipe.swift:187-189 | seconds are printed without their fraction, on either side of zero |
| LoginRecipe.RoundTrip | browser-lane-app/Sources/BrowserLaneApp/BrowserLaneLoginRecipe.swift:105-192 | for every accepted source, printing and parsing again gives the same steps if and only if every wait is whole and no default wait ends in a number |
| LoginRecipe.Reparse | browser-lane-app/Sources/BrowserLaneApp/BrowserLaneLoginRecipe.swift:180-192 | each printed step is read back as itself exactly when it survives, and never as a blank line |
| LoginRecipe.ParseLinesParsable | browser-lane-app/Sources/BrowserLaneApp/BrowserLaneLoginRecipe.swift:105-177 | every step of an accepted recipe is well formed: tight one-line selectors, timeouts in (0, 120], labels that are not empty |
| LoginRecipe.SerializedLines | browser-lane-app/Sources/BrowserLaneApp/BrowserLaneLoginRecipe.swift:180-192 | the printed text of a parsed recipe has exactly one line for each step |
| LoginRecipe.ReparseDefault | browser-lane-app/Sources/BrowserLaneApp/BrowserLaneLoginRecipe.swift:120-133 | a selector printed without a timeout is kept exactly when it does not end in a number after another token |
| LoginRecipe.ReparseClickText | browser-lane-app/Sources/BrowserLaneApp/BrowserLaneLoginRecipe.swift:141-154 | a label keeps its leading and inner spaces |
| LoginRecipe.ParseClickTextParsable | browser-lane-app/Sources/BrowserLaneApp/BrowserLaneLoginRecipe.swift:141-154 | for every text the parser hands on, a refused clickText reports a missing value |
| LoginRecipe.DefaultTimeoutIsLost | browser-lane-app/Sources/BrowserLaneApp/BrowserLaneLoginRecipe.swift:120-133 | an explicit default timeout is not printed, and then the selector's own last number is read as one |
| LoginHosts.HostAllowedByLabels | browser-lane-app/Sources/BrowserLaneApp/BrowserLaneLoginRunner.swift:90-97 | a host is allowed if and only if the labels of some non-empty allowed domain are the last labels of the host, letter case aside |
| LoginHosts.DomainIsLabelSuffix | browser-lane-app/Sources/BrowserLaneApp/BrowserLaneLoginRunner.swift:92-96 | the string test for one domain compares whole labels |
| LoginHosts.AnnouncedOrderly | browser-lane-app/Sources/BrowserLaneApp/BrowserViewController.swift:549-560 | the frame table keeps one frame for each origin and kind, main frames first, and the newest announcement is the first main frame or the last child frame |
| LoginHosts.OthersStayInOrder | browser-lane-app/Sources/BrowserLaneApp/BrowserViewController.swift:558-559 | the other frames stay in the table in the order they were in |
| LoginHosts.FrameTable.DidReceive | browser-lane-app/Sources/BrowserLaneApp/BrowserViewController.swift:549-560 | an announcement updates the table as specified and keeps it orderly |
| LoginHosts.FrameTable.DidStartNavigation | browser-lane-app/Sources/BrowserLaneApp/BrowserViewController.swift:473-480 | only a top-level navigation of the main view forgets the frames |
| LoginRunner.RunIsSafe | browser-lane-app/Sources/BrowserLaneApp/BrowserLaneLoginRunner.swift:99-175 | in every run against any page, a sign-in value is typed only in a frame that was reported when the step began, whose origin is allowed, just after its selector was found there; the steps before the last are done in order, later ones are never touched, and the outcome is the one the evaluations explain |
| LoginRunner.RunFollows | browser-lane-app/Sources/BrowserLaneApp/BrowserLaneLoginRunner.swift:99-197 | every run evaluates exactly what its steps ask for and where: each search through the reported frames in order, the main frame if there are none, up to the first answer and through all of them if there is none; polls are such searches; all steps but the last succeeded, and the last says by its last evaluation why the run stops |
| LoginRunner.RunStepMade | browser-lane-app/Sources/BrowserLaneApp/BrowserLaneLoginRunner.swift:119-175 | the same for one step, which succeeds exactly when its last evaluation did |
| LoginRunner.SearchMade | browser-lane-app/Sources/BrowserLaneApp/BrowserViewController.swift:566-597 | a search asks the places in order and ends at the first answer other than "missing", or after the last place |
| LoginRunner.LocatingMade | browser-lane-app/Sources/BrowserLaneApp/BrowserViewController.swift:623-639 | the search for a selector asks the reported frames in order up to the first that has it |
| LoginRunner.StepTakes | browser-lane-app/Sources/BrowserLaneApp/BrowserLaneLoginRunner.swift:142-153 | when callbacks are prompt a pause takes its seconds, and a polled step that stalls its timeout, up to the next quarter second |
| LoginRunner.RunFromTrace | browser-lane-app/Sources/BrowserLaneApp/BrowserLaneLoginRunner.swift:112-175 | the same from any step on: completed if and only if every step succeeded, otherwise the first step that did not |
| LoginRunner.RunStepTrace | browser-lane-app/Sources/BrowserLaneApp/BrowserLaneLoginRunner.swift:119-175 | a step makes only its own evaluations and lets the run go on exactly when one of them finished it |
| LoginRunner.FillCredentialTrace | browser-lane-app/Sources/BrowserLaneApp/BrowserViewController.swift:599-639 | a sign-in value is typed, or refused naming the offending origin, or the step stalls |
| LoginRunner.PollTrace | browser-lane-app/Sources/BrowserLaneApp/BrowserLaneLoginRunner.swift:183-197 | polling repeats one script, ends with "ok" exactly when some reply was, and otherwise only at the deadline |
| LoginRunner.PollBound | browser-lane-app/Sources/BrowserLaneApp/BrowserLaneLoginRunner.swift:183-197 | at most one look and one more for every quarter second to the deadline |
| LoginRunner.RecipePollBound | browser-lane-app/Sources/BrowserLaneApp/BrowserLaneLoginRunner.swift:144-153 | at most 481 looks for a timeout a recipe can hold |
| LoginRunner.FailedPollTakes | browser-lane-app/Sources/BrowserLaneApp/BrowserLaneLoginRunner.swift:183-197 | when callbacks are prompt a failed poll looks exactly once at the start and once every quarter second to the deadline |
| LoginRunner.BrowserLaneLoginRunner.RunRecipe | browser-lane-app/Sources/BrowserLaneApp/BrowserLaneLoginRunner.swift:99-110 | the engine's run is the specified one; what it typed is safe, what it evaluated follows the recipe, and its outcome is explained |
| LoginRunner.BrowserLaneLoginRunner.Step | browser-lane-app/Sources/BrowserLaneApp/BrowserLaneLoginRunner.swift:119-175 | one step evaluates and decides as specified |
| LoginRunner.BrowserLaneLoginRunner.PollUntil | browser-lane-app/Sources/BrowserLaneApp/BrowserLaneLoginRunner.swift:183-197 | polling ends and evaluates as specified |
| LoginRunner.BrowserLaneLoginRunner.TypeCredential | browser-lane-app/Sources/BrowserLaneApp/BrowserViewController.swift:599-617 | the frame is found, checked and only then typed into |
| ReadQueue.EveryRun | browser-lane-app/Sources/BrowserLaneApp/BrowserViewController.swift:645-729 | after any events the reads answered are the first submitted, once each and in order, the next one is active, and no read waits while none is active |
| ReadQueue.NextKeepsInv | browser-lane-app/Sources/BrowserLaneApp/BrowserViewController.swift:645-729 | every event keeps the invariant: each read accounted for, only the active read's timer armed, and that timer or a script under way |
| ReadQueue.AnswersStay | browser-lane-app/Sources/BrowserLaneApp/BrowserViewController.swift:721-729 | an answer given is never changed or repeated later |
| ReadQueue.EverythingIsAnswered | browser-lane-app/Sources/BrowserLaneApp/BrowserViewController.swift:650-729 | from every reachable state timers and script callbacks alone, at most two for each read, answer everything: no read is stranded |
| ReadQueue.WakeAnswers | browser-lane-app/Sources/BrowserLaneApp/BrowserViewController.swift:665-696 | the active read's timer, or a script under way, suffices to answer it |
| ReadQueue.NoPageFails | browser-lane-app/Sources/BrowserLaneApp/BrowserViewController.swift:691-701 | a script that brings no page back fails the active read, as read_timeout if the timer started it and extraction_failed otherwise |
| ReadQueue.ScriptsStarted | browser-lane-app/Sources/BrowserLaneApp/BrowserViewController.swift:490-495 | the timer and each settled page load start a script for the active read, of which only the timer's is a timeout; without an active read they start none |
| ReadQueue.LateCallbackIsDropped | browser-lane-app/Sources/BrowserLaneApp/BrowserViewController.swift:693 | a callback that comes when no read is active changes nothing else |
| ReadQueue.AnswersAreOwn | browser-lane-app/Sources/BrowserLaneApp/BrowserViewController.swift:672-729 | in every run, each read is answered by a script started for it if and only if no callback meets an active read that its script was not started for |
| ReadQueue.SingleScriptsAnswerTheirOwn | browser-lane-app/Sources/BrowserLaneApp/BrowserViewController.swift:672-729 | when every callback comes while its script is the only one under way, every answer is the read's own |
| ReadQueue.LateScriptAnswersNextRead | browser-lane-app/Sources/BrowserLaneApp/BrowserViewController.swift:490-729 | from the start of a run: two reads, a timeout, a late load and two callbacks answer both reads from scripts started for the first |
| ReadQueue.SecondScriptAnswersNextRead | browser-lane-app/Sources/BrowserLaneApp/BrowserViewController.swift:693-717 | with two scripts under way for one read the second answers the read after it |
| ReadQueue.TwoScriptsCanBeUnderWay | browser-lane-app/Sources/BrowserLaneApp/BrowserViewController.swift:490-495 | a timeout and a late load lead to such a state |
| ReadQueue.BrowserController.PerformRead | browser-lane-app/Sources/BrowserLaneApp/BrowserViewController.swift:645-648 | a submission updates the fields as specified and keeps the invariant |
| ReadQueue.BrowserController.StartNextReadIfIdle | browser-lane-app/Sources/BrowserLaneApp/BrowserViewController.swift:650-669 | the next read starts, and reads without an address are answered on the way |
| ReadQueue.BrowserController.FinishRead | browser-lane-app/Sources/BrowserLaneApp/BrowserViewController.swift:721-729 | the timer is cancelled, the read answered and the next started |
| ReadQueue.BrowserController.ScriptReturned | browser-lane-app/Sources/BrowserLaneApp/BrowserViewController.swift:691-717 | a script callback updates the fields as specified and keeps the invariant |
| ReadQueue.BrowserController.TimeoutFired | browser-lane-app/Sources/BrowserLaneApp/BrowserViewController.swift:665-669 | the timer starts a script for the active read and keeps the invariant |
| AccessTree.Tree | desktopbee-helper/Sources/DesktopBeeHelper/AX.swift:26-55 | the nodes reported, parents first, are the first maxNodes, at least one, of the preorder cut at maxDepth; truncated tells whether that preorder reaches maxNodes, and a tree that is not flagged holds all of it |
| AccessTree.TreeReader.Read | desktopbee-helper/Sources/DesktopBeeHelper/AX.swift:29-52 | the same below any element, for the budget the shared counter leaves |
| AccessTree.TreeReader.ReadChildren | desktopbee-helper/Sources/DesktopBeeHelper/AX.swift:42-50 | the children's nodes fill the budget in order, and the loop stops only when it is used up |
| AccessTree.PreorderExactly | desktopbee-helper/Sources/DesktopBeeHelper/AX.swift:42-48 | the preorder holds exactly the elements that an address of at most maxDepth steps leads to, each under its address, in the order of the addresses |
| AccessTree.NodeSays | desktopbee-helper/Sources/DesktopBeeHelper/AX.swift:31-41 | each node tells its own element's role, or "?", and its title, value, label and actions exactly when they are there and not empty |
| AccessTree.Resolve | desktopbee-helper/Sources/DesktopBeeHelper/AX.swift:58-68 | the path loop descends along the path's integers or finds nothing |
| AccessTree.OneMoreComponent | desktopbee-helper/Sources/DesktopBeeHelper/AX.swift:61 | a path component that is an integer is followed, and any other passed over |
| AccessTree.PathRoundTrip | desktopbee-helper/Sources/DesktopBeeHelper/AX.swift:47-61 | a printed path is read as the address it was printed for |
| AccessTree.PathsResolve | desktopbee-helper/Sources/DesktopBeeHelper/AX.swift:29-68 | every path in a reported tree resolves, on the same tree, to the element it was emitted for |
| AccessTree.PathsDistinct | desktopbee-helper/Sources/DesktopBeeHelper/AX.swift:29-52 | no two nodes have the same path |
| Vad.Refines | voice-sidecar/vad.py:61-85 | a start is signalled exactly when no segment is open and the last start frames since the last boundary were all voiced, an end dually for silence |
| Vad.SignalsAlternate | voice-sidecar/vad.py:61-85 | starts and ends alternate |
| Vad.SegmentsTakeTime | voice-sidecar/vad.py:61-85 | ends times the frames a segment needs never exceed the frames seen |
| Vad.VadSegmenter.PushRms | voice-sidecar/vad.py:61-85 | the method updates the three fields and signals as specified |
| Vad.VadSegmenter.Reset | voice-sidecar/vad.py:56-59 | the fields are as new |
| LiveLoop.HalfDuplexRun | voice-sidecar/live.py:141-214 | in every half-duplex run, capturing agrees with the segmenter and excludes cooldown and a running worker, at most one worker runs, the preroll is bounded, and every utterance handed over is good: a short preroll ending in the voiced start, every later frame through the closing silence, none taken while the assistant spoke or in the eight frames after |
| LiveLoop.StepKeepsInv | voice-sidecar/live.py:153-214 | every frame keeps the invariant these facts follow from |
| LiveLoop.CapturesInSilence | voice-sidecar/live.py:162-166 | if audio starts only while a worker runs, nothing plays and no worker runs at any frame of a capture, so the exception for capturing never matters |
| LiveLoop.EveryUtteranceIsHandedOver | voice-sidecar/live.py:160-214 | from the start or a clearing on, as long as it is capturing or the assistant is silent, the loop captures exactly while a segment is open; each frame that closes one, and no other, hands over one utterance, from the three voiced frames that opened it to that frame, and starts a worker |
| LiveLoop.ListeningRun | voice-sidecar/live.py:160-214 | in the same runs, as many utterances are handed over as segments close |
| LiveLoop.UtteranceBeginsWithPreroll | voice-sidecar/live.py:208-214 | the first utterance after a clearing begins with the last eight frames, or all since |
| LiveLoop.SpeechIsIgnored | voice-sidecar/live.py:165-184 | in half-duplex mode a frame during speech is never captured and clears what was heard |
| LiveLoop.EchoIsPassedOver | voice-sidecar/live.py:189-198 | exactly the eight frames after speech are passed over, and then the loop listens afresh |
| LiveLoop.HeadphonesListenAtOnce | voice-sidecar/live.py:189-198 | in interrupting mode the first frame after speech is already listened to |
| LiveLoop.InterruptsExactly | voice-sidecar/live.py:166-184 | talking over the assistant begins a capture exactly when the stricter segmenter signals a start |
| LiveLoop.InterruptionEnds | voice-sidecar/live.py:166-207 | in every interrupting run, an interruption's utterance begins with its preroll and is handed over, with every later frame to its end, exactly when the segmenter, cleared at the interruption, closes a segment of its own |
| LiveLoop.SilenceEndsNoInterruption | voice-sidecar/live.py:175-207 | after an interruption silence alone never closes a segment, so it never ends the capture |
| LiveLoop.BriefInterruptionStays | voice-sidecar/live.py:166-207 | four loud frames over the assistant and then any silence: still capturing, nothing handed over |
| LiveLoop.ListenLive | voice-sidecar/live.py:153-214 | the loop hands over exactly the specified utterances |
| LiveLoop.Session.Process | voice-sidecar/live.py:160-214 | one pass of the loop body does the specified step, in both modes |
| LiveLoop.Session.Overhear | voice-sidecar/live.py:166-184 | a frame during speech is kept, or interrupts |
| LiveLoop.Session.Resume | voice-sidecar/live.py:189-195 | the first frame after speech clears the segmenters and, in half-duplex, starts the cooldown |
| LiveLoop.Session.Record | voice-sidecar/live.py:200-207 | a captured frame is added, and the closing silence hands over |
| LiveLoop.Session.Await | voice-sidecar/live.py:209-214 | a frame before speech goes to the preroll, and the voiced start begins a capture with it |
| LaneHttp.SegmentationDoesNotMatter | browser-lane-app/Sources/BrowserLaneApp/LaneHTTPServer.swift:54-71 | however one stream is cut up, the same request, the same refusal or the same wait results |
| LaneHttp.ReceiveAllOutcome | browser-lane-app/Sources/BrowserLaneApp/LaneHTTPServer.swift:54-71 | the receive loop's result is the parse of all bytes sent |
| LaneHttp.ParsedStays | browser-lane-app/Sources/BrowserLaneApp/LaneHTTPServer.swift:74-92 | a parsed request is unchanged by any further bytes |
| LaneHttp.RequestRecognised | browser-lane-app/Sources/BrowserLaneApp/LaneHTTPServer.swift:74-92 | a request with any version or none and any header fields, whose last length field, if there is one, gives the size of its body, is recognised as itself once its last byte is there, whatever follows, and not before |
| LaneHttp.LengthLineRead | browser-lane-app/Sources/BrowserLaneApp/LaneHTTPServer.swift:83-85 | a length field in any letter case, with blanks around the number, is read as that number |
| LaneHttp.LinesExactly | browser-lane-app/Sources/BrowserLaneApp/LaneHTTPServer.swift:78 | the header lines, joined by CR LF, are the header text, and no line holds a CR LF |
| LaneHttp.OnlyLengthFields | browser-lane-app/Sources/BrowserLaneApp/LaneHTTPServer.swift:83 | a field is a length field if and only if that is its name, letter case aside |
| LaneHttp.NoNumberIsZero | browser-lane-app/Sources/BrowserLaneApp/LaneHTTPServer.swift:84-85 | a length field that holds no number counts as zero |
| LaneHttp.NegativeLength | browser-lane-app/Sources/BrowserLaneApp/LaneHTTPServer.swift:88-90 | a length of zero or less asks for no body |
| LaneHttp.WhatIsRead | browser-lane-app/Sources/BrowserLaneApp/LaneHTTPServer.swift:77-81 | a header is read if and only if it is text whose first line has two words, the verb and the path |
| LaneHttp.UnreadableHead | browser-lane-app/Sources/BrowserLaneApp/LaneHTTPServer.swift:74-81 | a header that cannot be read never makes a request, and is refused at the end of the stream |
| LaneHttp.ScanLength | browser-lane-app/Sources/BrowserLaneApp/LaneHTTPServer.swift:82-86 | the last length field decides |
| LaneHttp.Parse | browser-lane-app/Sources/BrowserLaneApp/LaneHTTPServer.swift:74-92 | the parser computes the specified request |
| LaneHttp.Receiver.DidReceive | browser-lane-app/Sources/BrowserLaneApp/LaneHTTPServer.swift:54-71 | a callback does the specified step; requests handled and refusals sent are one at most in all |
| HomePath.AcceptedExactly | src/daemon/server.ts:93-121 | an input is accepted if and only if it is not blank and leads to home or below, home not being the root; otherwise the error is the one given |
| HomePath.AcceptedIsConfined | src/daemon/server.ts:98-120 | an accepted path has home's segments as a prefix, no empty or dot segment, and resolves to itself from anywhere |
| HomePath.PrefixTests | src/daemon/server.ts:117 | the string-prefix test agrees with the segment-prefix test if and only if home is not the root |
| HomePath.OneMoreName | src/daemon/server.ts:113 | one more name on a path: nothing and "." stay, ".." goes up but never above the root, any other goes down |
| HomePath.WherePathsStart | src/daemon/server.ts:113 | absolute paths start at the root and others at the working directory |
| HomePath.OtherInputsAreKept | src/daemon/server.ts:99-111 | an input that names home in none of the ways is taken as it is, without white space around it |
| HomePath.WhiteSpace | src/daemon/server.ts:99 | which characters count as white space |
| HomePath.RootHomeAcceptsNothing | src/daemon/server.ts:114-119 | with the root as home nothing is accepted, though everything is below it |
| HomePath.HomeFormsAgree | src/daemon/server.ts:101-111 | each of the three names of home, alone, leads to home, and with a path after it, on from home |
| SiteIds.BrowserLaneSlug | browser-lane-app/Sources/BrowserLaneApp/BrowserLaneModels.swift:180-192 | for every name and alphabet, repeated replacement ends and equals collapsing every run of dashes in one pass |
| SiteIds.SlugIsValid | browser-lane-app/Sources/BrowserLaneApp/BrowserLaneModels.swift:180-192 | a slug is lower-case, has only kept characters, no double dash and no dash at an edge, if lower case is final |
| SiteIds.SlugKeepsCharacters | browser-lane-app/Sources/BrowserLaneApp/BrowserLaneModels.swift:180-192 | a slug has the kept characters of the lower-cased name other than dashes, all of them and in order |
| SiteIds.SlugIdempotent | browser-lane-app/Sources/BrowserLaneApp/BrowserLaneModels.swift:180-192 | a slug is its own slug |
| SiteIds.FreshId | browser-lane-app/Sources/BrowserLaneApp/SidebarViewController.swift:235-242 | the loop ends after at most as many steps as there are ids, with the first candidate that is free |
| SiteIds.TakenAtMost | browser-lane-app/Sources/BrowserLaneApp/SidebarViewController.swift:235-242 | no more candidates can be taken than there are ids |
| SiteIds.CandidatesDistinct | browser-lane-app/Sources/BrowserLaneApp/SidebarViewController.swift:240 | no two candidates are equal |
| DueDate.ParseDue | voice-sidecar/llm.py:648-753 | the stepwise choice of day and time gives the specified due time |
| DueDate.ChooseDay | voice-sidecar/llm.py:668-722 | a calendar date goes before a day word, a day word before a day of the month |
| DueDate.ChooseTime | voice-sidecar/llm.py:726-744 | a usable clock time goes before a part of the day |
| DueDate.SpanFromNow | voice-sidecar/llm.py:658-666 | "in n minutes, hours, days, weeks" is that many of 60, 3600, 86400 or 604800 seconds from now, to the microsecond; an error comes exactly when that is past the last day |
| DueDate.ClockMeans | voice-sidecar/llm.py:727-739 | pm adds 12 up to noon, 12 am is midnight, and a bare hour up to 7 is in the evening |
| DueDate.DaypartMeans | voice-sidecar/llm.py:740-744 | without a usable clock time the first part of the day named decides, each with its hour |
| DueDate.DayWithoutTime | voice-sidecar/llm.py:745-748 | a day without a time means nine o'clock, and neither means nothing |
| DueDate.DayWithTime | voice-sidecar/llm.py:750-753 | a settled day with a time is due on that day at that time |
| DueDate.DayWords | voice-sidecar/llm.py:696-708 | tomorrow is the next day and today this one |
| DueDate.DayOfMonthIsEarliest | voice-sidecar/llm.py:710-722 | "the 19th" is the earliest 19th that is not past, exactly when this month has one and, if that has passed, so does the next |
| DueDate.BareTimeIsNext | voice-sidecar/llm.py:745-753 | a bare time of day is the next instant with that time: within 24 hours and on the minute |
| DueDate.WeekdayIsNext | voice-sidecar/llm.py:700-706 | a weekday phrase lands on that weekday, one to seven days ahead |
| DueDate.MonthDayLands | voice-sidecar/llm.py:674-690 | a month and day without a year that are found in the years tried land on the earliest such date that is not past |
| DueDate.NoDateFound | voice-sidecar/llm.py:674-693 | exactly when no date is found: a month with a day from 1 to 31 decides alone, then a numeric date in range, with its year if it has one |
| DueDate.MonthDayIsEarliest | voice-sidecar/llm.py:677-690 | and they are found exactly when the date exists this year and, if past, next year |
| DueDate.SettledDayIsKept | voice-sidecar/llm.py:750-753 | a settled day is never moved, and when an error is raised |
| DueDate.UnsettledIsAhead | voice-sidecar/llm.py:710-753 | without a settled day the due time is ahead by a day at most, exactly unless a missed day of the month is named that is not yesterday with a time still to come; it is never later than that |
| DueDate.NamedYearIsKept | voice-sidecar/llm.py:684-687 | a date with its year is kept exactly unless it is 29 February in a common current year |
| DueDate.NamedYearLands | voice-sidecar/llm.py:683-687 | a due time for a date named with its year is on that date |
| DueDate.LeapDayIsLost | voice-sidecar/llm.py:683-693 | "2/29/2028" said in 2026 is ignored though the date exists |
| DueDate.MissedDay | voice-sidecar/llm.py:713-722 | a day of the month that has passed and that the next month lacks is left in the past |
| DueDate.ThirtiethOnTheLast | voice-sidecar/llm.py:710-753 | "the 30th at 9" on 31 January at 10 is due an hour before |
| DueDate.FoundDateNeverOverflows | voice-sidecar/llm.py:674-690 | a found date is never past the last representable day: only minutes above 59 raise |
| DueDate.LastDayIsLast | voice-sidecar/llm.py:666 | the last representable day is 31 December 9999 |
| DueDate.AFriday | voice-sidecar/test_parse_due.py:11 | 10 July 2026 is a Friday |
| DueDate.OrdinalOrders | voice-sidecar/llm.py:679 | day numbers order dates as the calendar does |

## Left out

- Routes, boot sequence, user interface, foreign calls, cryptography, audio devices, speech models: no algorithmic content, or code that is not in the repository.
- The scripts sent to pages: a page answers arbitrarily at every step instead.
- JSON numbers that are not integers in plain decimal notation, and `undefined`: numbers are integers of any size here.
- Letter case outside ASCII in hosts, verbs and header names. Slugs take the platform's letters and lower case as a parameter.
- Characters that Swift combines into one, such as a letter with an accent after it or a CR LF pair: a character is one code point here.
- Tabs inside recipe lines: space is the only white space inside a line.
- The platform's floating-point reader and UTF-8 header decoder, and the digit and space classes of the Unicode regular expressions: parameters, with what is relied on stated as a precondition.
- LoginRunner.RunIsSafe: every callback comes; a page that never answers a script, and a runner or view that is released during a run, are not modelled. The outcome for an error of the driver is missing because this driver never reports one.
- LoginRunner.BrowserLaneLoginRunner.RunRecipe: the self-reference that keeps a runner alive is a flag, raised for the run.
- ReadQueue.EveryRun: a completion that submits another read before it returns is not modelled, nor is what a page answers; two loads of one page are not told apart.
- LiveLoop.HalfDuplexRun: nothing of the kind is claimed of interrupting mode, where a cancelled worker may go on and the assistant's audio can be in an utterance. Which frames recur in the preroll of a later utterance is not excluded. The player's queue is reduced to whether audio plays.
- LaneHttp.SegmentationDoesNotMatter: the handler and the response are not modelled, nor is what other header fields mean.
- DueDate.ParseDue: the patterns that recognise the parts of a phrase; the model begins at the recognised parts, with the clock time as a function of what has been taken out of the text.
- HomePath.AcceptedIsConfined: symbolic links and other platforms' separators; `resolve` itself does not look at the file system.
- Energies and times are reals, not floating-point numbers.
