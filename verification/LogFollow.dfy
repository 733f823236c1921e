/** Following a pod's log: a goroutine scans lines and offers them over an
    unbuffered channel, the handler's loop writes them out between keepalives
    (internal/api/handlers/service_handler.go, GetPodLogs with follow). The steps of
    both, of the ticker and of the client may come in any order. */
module LogFollow {
  import opened Basics

  /** How a scan ended: at the end of the log, on a line over the limit, or on
      another error. */
  datatype Outcome = Clean | TooLong | Interrupted

  /** What the client is sent. */
  datatype Event = Message(line: string) | Keepalive | Problem(text: string)

  datatype Producer =
    | Scanning
    | Offering(line: string)
    | Ended(outcome: Outcome)   // to be sent on scanErr, which has room for one
    | Closing                   // sent; to close lines
    | Abandoning                // the request is over; to close lines
    | Finished

  datatype Reason = Cancelled | WriteFailed | LinesClosed(read: Option<Outcome>)

  datatype Consumer = Waiting | SawClose | Returned(reason: Reason)

  datatype State = State(
    producer: Producer,
    consumer: Consumer,
    cancelled: bool,             // the request's context
    scanErr: Option<Outcome>,    // the buffer of the channel
    closes: nat,                 // how often lines was closed
    sends: nat,                  // how often scanErr was sent on
    out: seq<Event>,
    scanned: seq<string>,        // every line the scanner produced
    ending: Option<Outcome>)     // how the scanner ended, if it did

  // --- Steps ---

  function MessageOf(outcome: Outcome): string {
    if outcome.TooLong? then "log line too long, stream interrupted" else "log stream interrupted"
  }

  /** The scanner yields a line or ends; a cancelled request may cut it short. */
  ghost predicate ScanStep(s: State, s': State) {
    && s.producer.Scanning?
    && (|| (exists line :: s' == s.(producer := Offering(line), scanned := s.scanned + [line]))
        || (exists outcome :: s' == s.(producer := Ended(outcome), ending := Some(outcome))))
  }

  /** What the goroutine does by itself. */
  ghost predicate ProducerStep(s: State, s': State) {
    match s.producer
    case Scanning => ScanStep(s, s')
    case Offering(_) => s.cancelled && s' == s.(producer := Abandoning)
    case Ended(outcome) => s.scanErr.None?
      && s' == s.(producer := Closing, scanErr := Some(outcome), sends := s.sends + 1)
    case Closing => s' == s.(producer := Finished, closes := s.closes + 1)
    case Abandoning => s' == s.(producer := Finished, closes := s.closes + 1)
    case Finished => false
  }

  /** The channel is unbuffered: a line passes when one side offers and the other
      waits. */
  ghost predicate Handover(s: State, s': State) {
    && s.producer.Offering? && s.consumer.Waiting?
    && s' == s.(producer := Scanning, out := s.out + [Message(s.producer.line)])
  }

  ghost predicate ConsumerStep(s: State, s': State) {
    match s.consumer
    case Waiting =>
      || (s.cancelled && s' == s.(consumer := Returned(Cancelled)))
      || s' == s.(out := s.out + [Keepalive])
      || s' == s.(consumer := Returned(WriteFailed))
      || (s.closes > 0 && s' == s.(consumer := SawClose))
    case SawClose =>
      if s.scanErr.None? then s' == s.(consumer := Returned(LinesClosed(None)))
      else s' == s.(consumer := Returned(LinesClosed(s.scanErr)), scanErr := None,
                    out := if s.scanErr.value.Clean? then s.out else s.out + [Problem(MessageOf(s.scanErr.value))])
    case Returned(_) => false
  }

  /** The client may leave at any time, and the server ends the request when the
      handler returns. */
  ghost predicate CancelStep(s: State, s': State) {
    s' == s.(cancelled := true)
  }

  ghost predicate Step(s: State, s': State) {
    ProducerStep(s, s') || Handover(s, s') || ConsumerStep(s, s') || CancelStep(s, s')
  }

  ghost predicate Initial(s: State) {
    s == State(Scanning, Waiting, s.cancelled, None, 0, 0, [], [], None)
  }

  ghost predicate StepAt(states: seq<State>, n: nat)
    requires 0 < n < |states|
  {
    Step(states[n - 1], states[n])
  }

  ghost predicate IsRun(states: seq<State>) {
    && states != [] && Initial(states[0])
    && forall n :: 0 < n < |states| ==> StepAt(states, n)
  }

  // --- The invariant ---

  /** The lines the client was sent. */
  function Lines(out: seq<Event>): seq<string> {
    if out == [] then []
    else if Last(out).Message? then Lines(Init(out)) + [Last(out).line]
    else Lines(Init(out))
  }

  lemma LinesOfOneMore(out: seq<Event>, e: Event)
    ensures Lines(out + [e]) == if e.Message? then Lines(out) + [e.line] else Lines(out)
  {
    assert Init(out + [e]) == out;
  }

  /** The goroutine gave up on a line it had scanned. */
  predicate Abandoned(s: State) {
    s.producer.Abandoning? || (s.producer.Finished? && s.ending.None?)
  }

  /** What was sent is what was scanned, but for the line in the goroutine's hands. */
  ghost predicate LinesInv(s: State, sent: seq<string>) {
    if s.producer.Offering? then s.scanned == sent + [s.producer.line]
    else if Abandoned(s) then s.cancelled && s.scanned != [] && Init(s.scanned) == sent
    else s.scanned == sent
  }

  ghost predicate ProducerInv(s: State) {
    && s.closes == (if s.producer.Finished? then 1 else 0)
    && (s.producer.Scanning? || s.producer.Offering? || s.producer.Abandoning? ==> s.ending.None?)
    && (s.producer.Ended? ==> s.ending == Some(s.producer.outcome))
    && (s.producer.Closing? ==> s.ending.Some?)
    && s.sends == (if s.ending.Some? && !s.producer.Ended? then 1 else 0)
  }

  /** The outcome waits in scanErr from its being sent to its being read. */
  ghost predicate OutcomeInv(s: State) {
    && (s.consumer.SawClose? ==> s.closes > 0)
    && match s.consumer
       case Returned(LinesClosed(read)) => s.closes > 0 && s.scanErr.None? && read == s.ending
       case _ => s.scanErr == if s.sends == 1 then s.ending else None
  }

  predicate IsProblem(e: Event) {
    e.Problem?
  }

  /** Nothing follows a problem, and it is the one the scanner ended on. */
  ghost predicate OutInv(s: State) {
    && (s.consumer.Returned? && s.consumer.reason.Cancelled? ==> s.cancelled)
    && (forall i :: 0 <= i < |s.out| && IsProblem(s.out[i]) ==>
                      && i == |s.out| - 1 && s.consumer.Returned? && s.consumer.reason.LinesClosed?
                      && s.ending.Some? && !s.ending.value.Clean? && s.out[i].text == MessageOf(s.ending.value))
    && (s.consumer.Returned? && s.consumer.reason.LinesClosed? && s.ending.Some? && !s.ending.value.Clean? ==>
          s.out != [] && IsProblem(Last(s.out)))
  }

  ghost predicate Inv(s: State) {
    LinesInv(s, Lines(s.out)) && ProducerInv(s) && OutcomeInv(s) && OutInv(s)
  }

  lemma ProducerKeepsLines(s: State, s': State, sent: seq<string>)
    requires LinesInv(s, sent) && ProducerInv(s) && ProducerStep(s, s')
    ensures LinesInv(s', sent) && s'.out == s.out
  {
  }

  lemma HandoverKeepsLines(s: State, s': State, sent: seq<string>)
    requires LinesInv(s, sent) && ProducerInv(s) && Handover(s, s')
    ensures LinesInv(s', sent + [s.producer.line])
  {
  }

  lemma OthersKeepLines(s: State, s': State, sent: seq<string>)
    requires LinesInv(s, sent) && (ConsumerStep(s, s') || CancelStep(s, s'))
    ensures LinesInv(s', sent) && Lines(s'.out) == Lines(s.out)
  {
    if s'.out != s.out {
      LinesOfOneMore(s.out, Last(s'.out));
    }
  }

  lemma StepKeepsLines(s: State, s': State)
    requires LinesInv(s, Lines(s.out)) && ProducerInv(s) && Step(s, s')
    ensures LinesInv(s', Lines(s'.out))
  {
    if ProducerStep(s, s') {
      ProducerKeepsLines(s, s', Lines(s.out));
    } else if Handover(s, s') {
      HandoverKeepsLines(s, s', Lines(s.out));
      LinesOfOneMore(s.out, Message(s.producer.line));
    } else {
      OthersKeepLines(s, s', Lines(s.out));
    }
  }

  lemma StepKeepsProducer(s: State, s': State)
    requires ProducerInv(s) && Step(s, s')
    ensures ProducerInv(s')
  {
  }

  lemma StepKeepsOutcome(s: State, s': State)
    requires ProducerInv(s) && OutcomeInv(s) && Step(s, s')
    ensures OutcomeInv(s')
  {
    if ProducerStep(s, s') {
      assert s'.consumer == s.consumer;
    }
  }

  lemma StepKeepsOut(s: State, s': State)
    requires ProducerInv(s) && OutcomeInv(s) && OutInv(s) && Step(s, s')
    ensures OutInv(s')
  {
    if ProducerStep(s, s') {
      assert s'.consumer == s.consumer && s'.out == s.out;
    }
  }

  lemma StepKeepsInv(s: State, s': State)
    requires Inv(s) && Step(s, s')
    ensures Inv(s')
  {
    StepKeepsLines(s, s');
    StepKeepsProducer(s, s');
    StepKeepsOutcome(s, s');
    StepKeepsOut(s, s');
  }

  lemma {:induction false} EveryRunKeepsTheInvariant(states: seq<State>, n: nat)
    requires IsRun(states) && n < |states|
    ensures Inv(states[n])
  {
    if n > 0 {
      EveryRunKeepsTheInvariant(states, n - 1);
      assert StepAt(states, n);
      StepKeepsInv(states[n - 1], states[n]);
    }
  }

  // --- What every run keeps ---

  /** The client gets the scanner's lines in order, each once, and is never more
      than one line behind. */
  lemma DeliveredIsAPrefix(states: seq<State>, n: nat)
    requires IsRun(states) && n < |states|
    ensures Lines(states[n].out) <= states[n].scanned
    ensures |states[n].scanned| <= |Lines(states[n].out)| + 1
  {
    EveryRunKeepsTheInvariant(states, n);
  }

  /** A channel is closed at most once, and once the goroutine is done exactly once:
      no step ever closes a closed channel, nor sends on one. */
  lemma LinesAreClosedOnce(states: seq<State>, n: nat)
    requires IsRun(states) && n < |states|
    ensures states[n].closes == if states[n].producer.Finished? then 1 else 0
    ensures states[n].producer.Offering? || states[n].producer.Closing? || states[n].producer.Abandoning?
        ==> states[n].closes == 0
  {
    EveryRunKeepsTheInvariant(states, n);
  }

  /** Unless the request was cancelled, a close means that every line was sent and
      that the scanner's outcome is there to be read, or has been. */
  lemma CloseMeansEverythingWasSent(states: seq<State>, n: nat)
    requires IsRun(states) && n < |states| && states[n].closes > 0 && !states[n].cancelled
    ensures Lines(states[n].out) == states[n].scanned && states[n].ending.Some?
    ensures match states[n].consumer
            case Returned(LinesClosed(read)) => read == states[n].ending
            case _ => states[n].scanErr == states[n].ending
  {
    EveryRunKeepsTheInvariant(states, n);
  }

  /** The handler finds no outcome after a close exactly when the goroutine gave up
      a line, which takes a cancelled request. */
  lemma NoOutcomeMeansAbandoned(states: seq<State>, n: nat)
    requires IsRun(states) && n < |states| && states[n].consumer.SawClose?
    ensures states[n].scanErr.None? <==> Abandoned(states[n])
    ensures states[n].scanErr.None? ==> states[n].cancelled && |states[n].scanned| == |Lines(states[n].out)| + 1
  {
    EveryRunKeepsTheInvariant(states, n);
  }

  /** The client is told of a problem at most once, last, and exactly when the
      handler returned on a close after a scan that did not end cleanly. */
  lemma ProblemsAreReportedOnce(states: seq<State>, n: nat)
    requires IsRun(states) && n < |states|
    ensures forall i :: 0 <= i < |states[n].out| && states[n].out[i].Problem? ==> i == |states[n].out| - 1
    ensures states[n].out != [] && Last(states[n].out).Problem?
            <==> && states[n].consumer.Returned? && states[n].consumer.reason.LinesClosed?
                 && states[n].consumer.reason.read.Some? && !states[n].consumer.reason.read.value.Clean?
    ensures states[n].out != [] && Last(states[n].out).Problem? ==>
              states[n].ending.Some? && Last(states[n].out).text == MessageOf(states[n].ending.value)
  {
    EveryRunKeepsTheInvariant(states, n);
    assert forall i :: 0 <= i < |states[n].out| ==> (states[n].out[i].Problem? <==> IsProblem(states[n].out[i]));
  }

  // --- The goroutine comes to its end ---

  /** How many steps the goroutine takes at most once nobody takes its lines. */
  function Left(p: Producer): nat {
    match p
    case Scanning => 3
    case Offering(_) => 2
    case Ended(_) => 2
    case Closing => 1
    case Abandoning => 1
    case Finished => 0
  }

  ghost predicate CanGoOn(s: State) {
    exists s' :: ProducerStep(s, s')
  }

  /** With the handler gone, every step of the goroutine brings it nearer its end,
      and no other step sets it back. */
  lemma NothingSetsItBack(s: State, s': State)
    requires s.consumer.Returned? && Step(s, s')
    ensures s'.consumer.Returned? && (s.cancelled ==> s'.cancelled)
    ensures if ProducerStep(s, s') then Left(s'.producer) < Left(s.producer) else s'.producer == s.producer
  {
  }

  /** It is stuck for good exactly in front of a line nobody will take, in a request
      nobody cancelled: the cancellation that follows the handler's return is what
      frees it. */
  lemma StuckExactlyWithoutCancellation(states: seq<State>, n: nat)
    requires IsRun(states) && n < |states|
    requires states[n].consumer.Returned? && !states[n].producer.Finished?
    ensures !CanGoOn(states[n]) <==> states[n].producer.Offering? && !states[n].cancelled
  {
    EveryRunKeepsTheInvariant(states, n);
    GoesOnUnlessStuck(states[n]);
  }

  lemma GoesOnUnlessStuck(s: State)
    requires Inv(s) && !s.producer.Finished?
    ensures CanGoOn(s) <==> !(s.producer.Offering? && !s.cancelled)
  {
    match s.producer
    case Scanning =>
      assert ScanStep(s, s.(producer := Ended(Clean), ending := Some(Clean)));
      assert ProducerStep(s, s.(producer := Ended(Clean), ending := Some(Clean)));
    case Offering(_) =>
      if s.cancelled {
        assert ProducerStep(s, s.(producer := Abandoning));
      }
    case Ended(outcome) =>
      assert ProducerStep(s, s.(producer := Closing, scanErr := Some(outcome), sends := s.sends + 1));
    case Closing =>
      assert ProducerStep(s, s.(producer := Finished, closes := s.closes + 1));
    case Abandoning =>
      assert ProducerStep(s, s.(producer := Finished, closes := s.closes + 1));
    case Finished =>
  }

  /** Steps of the goroutine alone. */
  ghost predicate OnItsOwn(path: seq<State>) {
    path != [] && forall n :: 0 <= n < |path| - 1 ==> ProducerStep(path[n], path[n + 1])
  }

  lemma {:induction false} RunsToItsEnd(s: State) returns (path: seq<State>)
    requires Inv(s) && s.consumer.Returned? && s.cancelled
    ensures OnItsOwn(path) && path[0] == s && |path| <= Left(s.producer) + 1
    ensures Last(path).producer.Finished? && Last(path).closes == 1 && Last(path).out == s.out
    decreases Left(s.producer)
  {
    if s.producer.Finished? {
      path := [s];
    } else {
      GoesOnUnlessStuck(s);
      var s' :| ProducerStep(s, s');
      NothingSetsItBack(s, s');
      StepKeepsInv(s, s');
      var rest := RunsToItsEnd(s');
      path := [s] + rest;
    }
  }

  /** The goroutine's own steps bring it nearer its end, one at least each. */
  lemma {:induction false} PathsAreShort(path: seq<State>)
    requires OnItsOwn(path) && Inv(path[0]) && path[0].consumer.Returned? && path[0].cancelled
    ensures |path| + Left(Last(path).producer) <= Left(path[0].producer) + 1
    ensures Inv(Last(path)) && Last(path).cancelled && Last(path).out == path[0].out
  {
    if |path| > 1 {
      StepKeepsInv(path[0], path[1]);
      NothingSetsItBack(path[0], path[1]);
      PathsAreShort(path[1..]);
    }
  }

  /** After the handler's return and the cancellation every path of the goroutine's own
      steps has three at most, sends nothing more, and where it cannot go on it has
      ended, with the channel closed. */
  lemma TheGoroutineEnds(states: seq<State>, n: nat, path: seq<State>)
    requires IsRun(states) && n < |states|
    requires states[n].consumer.Returned? && states[n].cancelled
    requires OnItsOwn(path) && path[0] == states[n]
    ensures |path| <= 4 && Last(path).out == states[n].out
    ensures !CanGoOn(Last(path)) <==> Last(path).producer.Finished?
    ensures !CanGoOn(Last(path)) ==> Last(path).closes == 1
  {
    EveryRunKeepsTheInvariant(states, n);
    PathsAreShort(path);
    if !Last(path).producer.Finished? {
      GoesOnUnlessStuck(Last(path));
    }
  }

  /** One of these paths is complete. */
  lemma TheGoroutineCanEnd(states: seq<State>, n: nat) returns (path: seq<State>)
    requires IsRun(states) && n < |states|
    requires states[n].consumer.Returned? && states[n].cancelled
    ensures OnItsOwn(path) && path[0] == states[n] && !CanGoOn(Last(path))
  {
    EveryRunKeepsTheInvariant(states, n);
    path := RunsToItsEnd(states[n]);
  }

  /** Without that cancellation it can be stuck: a keepalive that cannot be written ends
      the handler while a line is on offer. */
  lemma AFailedKeepaliveMayLeaveItStuck(line: string) returns (states: seq<State>)
    ensures IsRun(states)
    ensures Last(states).consumer == Returned(WriteFailed) && !Last(states).producer.Finished? && !CanGoOn(Last(states))
  {
    var start := State(Scanning, Waiting, false, None, 0, 0, [], [], None);
    var offering := start.(producer := Offering(line), scanned := start.scanned + [line]);
    states := [start, offering, offering.(consumer := Returned(WriteFailed))];
    assert ScanStep(start, offering);
    assert StepAt(states, 1) && StepAt(states, 2);
    StuckExactlyWithoutCancellation(states, 2);
  }
}
