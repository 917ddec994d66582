/** The session read off the history of a run: what was called, and what was heard. */
module SessionHistory {
  import opened JsonValue
  import opened Session
  import opened SessionRuns

  /** A transport is set, a call is made, a message arrives. Responses to the requests that
      are remembered are left out: what they do is the subject of `SessionRuns`. */
  datatype Atom = Opened | Made(call: Call) | Heard(message: Incoming)

  type Past = seq<Atom>

  function MadeAll(calls: seq<Call>): Past {
    if |calls| == 0 then [] else MadeAll(calls[..|calls| - 1]) + [Made(calls[|calls| - 1])]
  }

  function Arrived(step: Step): Past {
    match step
    case Connect => [Opened]
    case AnswerInitialize(locations, _) => [Heard(InitializeResponse(locations))]
    case Notify(event, _) => [Heard(event)]
    case _ => []
  }

  function History(steps: seq<Step>): Past {
    if |steps| == 0 then []
    else
      var step := steps[|steps| - 1];
      History(steps[..|steps| - 1]) + Arrived(step) + MadeAll(Handlers(step))
  }

  // ---------- what the history says ----------

  predicate IsOpen(h: Past) {
    Opened in h
  }

  predicate EndsHandshake(a: Atom) {
    a.Heard? && a.message.InitializeResponse?
  }

  predicate StartsOver(a: Atom) {
    a == Opened || a == Made(DoInitialize)
  }

  /** The response to `initialize` has come, and nothing has started over since. */
  predicate Ready(h: Past) {
    exists k :: 0 <= k < |h| && EndsHandshake(h[k]) && forall j :: k < j < |h| ==> !StartsOver(h[j])
  }

  /** A transport, a launch, or a stop that was accepted. */
  predicate SetsThread(h: Past, i: nat)
    requires i < |h|
  {
    h[i] == Opened || h[i] == Made(Launch) || (h[i].Heard? && h[i].message.Stopped? && Ready(h[..i]))
  }

  /** The last of these says which thread is active. */
  predicate ThreadIs(h: Past, thread: int) {
    forall i :: 0 <= i < |h| && SetsThread(h, i) && (forall j :: i < j < |h| ==> !SetsThread(h, j)) ==>
      thread == if h[i].Heard? then h[i].message.thread else -1
  }

  /** The responses after which the program runs on. */
  predicate RunsOn(message: Incoming) {
    && message.Response?
    && message.command in {Plain("stepIn"), Plain("stepOut"), Plain("next"), Plain("continue")}
  }

  /** A transport, or a stop, a continuation or such a response that was accepted. */
  predicate SetsInteract(h: Past, i: nat)
    requires i < |h|
  {
    h[i] == Opened
    || (h[i].Heard? && Ready(h[..i])
        && (h[i].message.Stopped? || h[i].message.Continued? || RunsOn(h[i].message)))
  }

  /** One can interact if and only if the last of these is a stop. */
  predicate InteractIs(h: Past, can: bool) {
    forall i :: 0 <= i < |h| && SetsInteract(h, i) && (forall j :: i < j < |h| ==> !SetsInteract(h, j)) ==>
      can == (h[i].Heard? && h[i].message.Stopped?)
  }

  /** Some response that completed a handshake of this session has announced the feature. */
  predicate Announced(h: Past) {
    exists i :: 0 <= i < |h| && h[i] == Heard(InitializeResponse(true)) && !Ready(h[..i])
      && forall j :: i < j < |h| ==> h[j] != Opened
  }

  /** `s` is the state of a client with this past. */
  predicate Agrees(s: State, h: Past) {
    && (s.connected <==> IsOpen(h))
    && (s.connected ==>
          && (s.handshake == Completed <==> Ready(h)) && ThreadIs(h, s.activeThread)
          && InteractIs(h, s.canInteract) && (s.locations <==> Announced(h)))
    && (!s.connected ==>
          s.handshake != Completed && s.activeThread == -1 && !s.canInteract && !s.locations && s.sent == [])
  }

  // ---------- one more atom ----------

  lemma ReadyNext(h: Past, a: Atom)
    ensures Ready(h + [a]) <==> EndsHandshake(a) || (Ready(h) && !StartsOver(a))
  {
    var more := h + [a];
    if EndsHandshake(a) {
      assert EndsHandshake(more[|h|]);
    } else if Ready(h) && !StartsOver(a) {
      var k :| 0 <= k < |h| && EndsHandshake(h[k]) && forall j :: k < j < |h| ==> !StartsOver(h[j]);
      assert EndsHandshake(more[k]) && forall j :: k < j < |more| ==> !StartsOver(more[j]);
    }
    if Ready(more) {
      var k :| 0 <= k < |more| && EndsHandshake(more[k]) && forall j :: k < j < |more| ==> !StartsOver(more[j]);
      if k < |h| {
        assert EndsHandshake(h[k]) && !StartsOver(more[|h|]);
        assert forall j :: k < j < |h| ==> h[j] == more[j];
      }
    }
  }

  lemma SetsStay(h: Past, a: Atom, i: nat)
    requires i < |h|
    ensures SetsThread(h + [a], i) <==> SetsThread(h, i)
    ensures SetsInteract(h + [a], i) <==> SetsInteract(h, i)
  {
    assert (h + [a])[..i] == h[..i] && (h + [a])[i] == h[i];
  }

  lemma SetsLast(h: Past, a: Atom)
    ensures SetsThread(h + [a], |h|)
            <==> a == Opened || a == Made(Launch) || (a.Heard? && a.message.Stopped? && Ready(h))
    ensures SetsInteract(h + [a], |h|)
            <==> a == Opened
                 || (a.Heard? && Ready(h) && (a.message.Stopped? || a.message.Continued? || RunsOn(a.message)))
  {
    assert (h + [a])[..|h|] == h && (h + [a])[|h|] == a;
  }

  lemma ThreadNext(h: Past, a: Atom, thread: int)
    requires ThreadIs(h, thread)
    ensures ThreadIs(h + [a], if !SetsThread(h + [a], |h|) then thread else if a.Heard? then a.message.thread else -1)
  {
    var more := h + [a];
    forall i | 0 <= i < |h| ensures SetsThread(more, i) <==> SetsThread(h, i) {
      SetsStay(h, a, i);
    }
    SetsLast(h, a);
    forall i | 0 <= i < |h| && SetsThread(more, i) && forall j :: i < j < |more| ==> !SetsThread(more, j)
      ensures thread == if more[i].Heard? then more[i].message.thread else -1
    {
      assert forall j :: i < j < |h| ==> !SetsThread(h, j);
      assert more[i] == h[i];
    }
  }

  lemma InteractNext(h: Past, a: Atom, can: bool)
    requires InteractIs(h, can)
    ensures InteractIs(h + [a], if SetsInteract(h + [a], |h|) then a.Heard? && a.message.Stopped? else can)
  {
    var more := h + [a];
    forall i | 0 <= i < |h| ensures SetsInteract(more, i) <==> SetsInteract(h, i) {
      SetsStay(h, a, i);
    }
    SetsLast(h, a);
    forall i | 0 <= i < |h| && SetsInteract(more, i) && forall j :: i < j < |more| ==> !SetsInteract(more, j)
      ensures can == (more[i].Heard? && more[i].message.Stopped?)
    {
      assert forall j :: i < j < |h| ==> !SetsInteract(h, j);
      assert more[i] == h[i];
    }
  }

  lemma AnnouncedNext(h: Past, a: Atom)
    ensures Announced(h + [a])
            <==> (a == Heard(InitializeResponse(true)) && !Ready(h)) || (Announced(h) && a != Opened)
  {
    var more := h + [a];
    assert more[..|h|] == h && more[|h|] == a;
    if Announced(h) && a != Opened {
      var i :| 0 <= i < |h| && h[i] == Heard(InitializeResponse(true)) && !Ready(h[..i])
               && forall j :: i < j < |h| ==> h[j] != Opened;
      assert more[..i] == h[..i] && more[i] == h[i];
    }
    if Announced(more) {
      var i :| 0 <= i < |more| && more[i] == Heard(InitializeResponse(true)) && !Ready(more[..i])
               && forall j :: i < j < |more| ==> more[j] != Opened;
      if i < |h| {
        assert more[..i] == h[..i] && more[i] == h[i];
        assert forall j :: i < j < |h| ==> h[j] == more[j];
      }
    }
  }

  lemma Next(h: Past, a: Atom, s: State)
    requires Agrees(s, h) && s.connected
    ensures IsOpen(h + [a])
    ensures Ready(h + [a]) <==> EndsHandshake(a) || (s.handshake == Completed && !StartsOver(a))
    ensures var accepted := a.Heard? && s.handshake == Completed;
            a != Opened ==>
              && ThreadIs(h + [a], if a == Made(Launch) then -1
                                   else if accepted && a.message.Stopped? then a.message.thread
                                   else s.activeThread)
              && InteractIs(h + [a], if accepted && a.message.Stopped? then true
                                     else if accepted && (a.message.Continued? || RunsOn(a.message)) then false
                                     else s.canInteract)
              && (Announced(h + [a]) <==> s.locations || (a == Heard(InitializeResponse(true)) && !accepted))
  {
    ReadyNext(h, a);
    SetsLast(h, a);
    ThreadNext(h, a, s.activeThread);
    InteractNext(h, a, s.canInteract);
    AnnouncedNext(h, a);
  }

  // ---------- the client ----------

  lemma CallAgrees(s: State, call: Call, h: Past)
    requires Agrees(s, h)
    ensures Agrees(Perform(s, call), h + [Made(call)])
  {
    if s.connected {
      Next(h, Made(call), s);
    }
  }

  lemma MessageAgrees(s: State, message: Incoming, h: Past)
    requires Agrees(s, h) && (message.InitializeResponse? ==> s.connected)
    requires message.Response? ==> !IsTracked(message.command) && message.command != Locations
    ensures Agrees(Accept(s, message), h + [Heard(message)])
  {
    if s.connected {
      Next(h, Heard(message), s);
    }
  }

  lemma OpenAgrees(h: Past)
    ensures Agrees(FRESH.(connected := true), h + [Opened])
  {
    var more := h + [Opened];
    assert more[|h|] == Opened;
    ReadyNext(h, Opened);
    SetsLast(h, Opened);
    AnnouncedNext(h, Opened);
  }

  lemma {:induction false} CallsAgree(s: State, calls: seq<Call>, h: Past)
    requires Agrees(s, h)
    ensures Agrees(PerformAll(s, calls), h + MadeAll(calls))
  {
    if |calls| == 0 {
      assert h + [] == h;
    } else {
      var front, last := calls[..|calls| - 1], calls[|calls| - 1];
      CallsAgree(s, front, h);
      CallAgrees(PerformAll(s, front), last, h + MadeAll(front));
      PerformLast(s, calls);
      assert (h + MadeAll(front)) + [Made(last)] == h + MadeAll(calls);
    }
  }

  lemma {:induction false} PerformLast(s: State, calls: seq<Call>)
    requires |calls| > 0
    ensures PerformAll(s, calls) == Perform(PerformAll(s, calls[..|calls| - 1]), calls[|calls| - 1])
    decreases calls
  {
    if |calls| > 1 {
      PerformLast(Perform(s, calls[0]), calls[1..]);
      assert calls[1..][..|calls| - 2] == calls[..|calls| - 1][1..];
    } else {
      assert calls[1..] == [];
    }
  }

  lemma {:induction false} DoCallsPerforms(w: World, calls: seq<Call>)
    ensures DoCalls(w, calls).client == PerformAll(w.client, calls)
    decreases calls
  {
    if |calls| > 0 {
      DoCallsPerforms(DoCall(w, calls[0]), calls[1..]);
    }
  }

  /** The response to a remembered request touches none of this. */
  lemma AnswerAgrees(s: State, command: Command, seqno: nat, h: Past)
    requires Agrees(s, h) && (IsTracked(command) || command == Locations)
    ensures Agrees(Accept(s, Response(command, seqno)), h)
  {
    assert Accept(s, Response(command, seqno)).(queues := s.queues, log := s.log, files := s.files) == s;
  }

  lemma ArriveAgrees(w: World, step: Step, h: Past)
    requires Agrees(w.client, h) && EnabledAnytime(w, step)
    ensures Agrees(Arrive(w, step).client, h + Arrived(step))
  {
    assert h + [] == h;
    match step {
      case Connect => OpenAgrees(h);
      case Ask(_) =>
      case AnswerInitialize(locations, _) => MessageAgrees(w.client, InitializeResponse(locations), h);
      case Answer(command, _) => AnswerAgrees(w.client, command, Pending(w, command)[0].seqno, h);
      case AnswerLocations(seqno, _) => AnswerAgrees(w.client, Locations, seqno, h);
      case Notify(event, _) => MessageAgrees(w.client, event, h);
    }
  }

  /** In every run the session's fields are what the history says: whether the handshake is
      complete, which thread is active, whether one can interact, and what the server
      offers. */
  lemma {:induction false} HistoryTells(steps: seq<Step>)
    requires PossibleAnytime(steps)
    ensures Agrees(Run(steps).client, History(steps))
  {
    if |steps| > 0 {
      var front, step := steps[..|steps| - 1], steps[|steps| - 1];
      var w := Arrive(Run(front), step);
      HistoryTells(front);
      ArriveAgrees(Run(front), step, History(front));
      DoCallsPerforms(w, Handlers(step));
      CallsAgree(w.client, Handlers(step), History(front) + Arrived(step));
    }
  }

  // ---------- what goes on the wire ----------

  /** `t` is `s` with one more request, which takes the next of `numbers` numbers. */
  predicate Asks(s: State, t: State, command: Command, tag: Option<Tag>, numbers: nat) {
    t.sent == s.sent + [Request(s.seqno + 1, command, tag)] && t.seqno == s.seqno + numbers
  }

  /** In a connected client a call puts on the wire what it was given. */
  lemma CallAsks(s: State, call: Call)
    requires s.connected
    ensures var t := Perform(s, call);
            match call
            case DoInitialize => Asks(s, t, Initialize, None, 1) && t.handshake == InProgress
            case GetFrames(thread) =>
              Asks(s, t, StackTrace, Some(Thread(if thread == -1 then s.activeThread else thread)), 1)
            case GetScopes(frame) => Asks(s, t, Scopes, Some(Frame(frame)), 2)
            case GetChildrenVariables(reference, context) =>
              Asks(s, t, Variables, Some(Parent(reference, context)), 1)
            case GetVariableInfo(_) => Asks(s, t, Variables, None, 1)
            case SetBreakpointsFile(file) => Asks(s, t, SetBreakpoints, Some(File(file)), 2)
            case LoadSource(reference, callback) =>
              if reference > 0 then Asks(s, t, Source, Some(Callback(callback)), 1) else t == s
            case EvaluateExpression(callback) => Asks(s, t, Evaluate, Some(Callback(callback)), 1)
            case BreakpointLocations(file) =>
              if s.locations then Asks(s, t, Locations, Some(File(file)), 1) else t == s
            case Launch => Asks(s, t, Plain("launch"), None, 2)
            case Other(name, numbers) => Asks(s, t, Plain(name), None, if numbers == 2 then 2 else 1)
  {
  }

  /** Without a transport it leaves a fresh client, or an unchanged one. */
  lemma CallWithoutTransport(s: State, call: Call)
    requires !s.connected && !s.locations
    ensures var t := Perform(s, call);
            if call.DoInitialize? then t == FRESH.(handshake := InProgress)
            else t == FRESH || (t == s && (call.BreakpointLocations? || (call.LoadSource? && call.reference <= 0)))
  {
  }

  /** A response nobody waits for is passed on without a tag, or, for sources and
      evaluations, not at all. */
  lemma Unexpected(s: State, command: Command, seqno: nat)
    requires s.handshake == Completed && IsTracked(command) && s.queues.Of(command) == []
    ensures Accept(s, Response(command, seqno))
         == if command == Source || command == Evaluate then s
            else s.(log := s.log + [Outcome(seqno, command, None)])
  {
  }

  lemma FramesAsk(s: State, thread: int)
    requires s.connected && s.activeThread == thread
    ensures Asks(s, Perform(s, GetFrames(NOT_FOUND)), StackTrace, Some(Thread(thread)), 1)
    ensures Perform(s, GetFrames(NOT_FOUND)).queues.stackTrace == s.queues.stackTrace + [Thread(thread)]
  {
  }

  /** After any run, a call for the frames of no given thread asks for those of the thread
      of the last stop. */
  lemma FramesOfLastStop(steps: seq<Step>, i: nat)
    requires PossibleAnytime(steps) && IsOpen(History(steps)) && i < |History(steps)|
    requires SetsThread(History(steps), i) && History(steps)[i].Heard?
    requires forall j :: i < j < |History(steps)| ==> !SetsThread(History(steps), j)
    ensures var s, thread := Run(steps).client, History(steps)[i].message.thread;
            && s.activeThread == thread
            && Asks(s, Perform(s, GetFrames(NOT_FOUND)), StackTrace, Some(Thread(thread)), 1)
            && Perform(s, GetFrames(NOT_FOUND)).queues.stackTrace == s.queues.stackTrace + [Thread(thread)]
  {
    var h, s := History(steps), Run(steps).client;
    HistoryTells(steps);
    LastThread(h, s.activeThread, i);
    FramesAsk(s, s.activeThread);
  }

  lemma LastThread(h: Past, thread: int, i: nat)
    requires ThreadIs(h, thread) && i < |h| && SetsThread(h, i) && h[i].Heard?
    requires forall j :: i < j < |h| ==> !SetsThread(h, j)
    ensures thread == h[i].message.thread
  {
  }
}
