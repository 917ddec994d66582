/** Client and server as a transition system: what holds in every reachable state. */
module SessionRuns {
  import opened JsonValue
  import opened Session

  // ---------- requests and responses of one command ----------

  function Of(sent: seq<Request>, command: Command): seq<Request> {
    if |sent| == 0 then []
    else
      var last := sent[|sent| - 1];
      Of(sent[..|sent| - 1], command) + if last.command == command then [last] else []
  }

  function LogOf(log: seq<Outcome>, command: Command): seq<Outcome> {
    if |log| == 0 then []
    else
      var last := log[|log| - 1];
      LogOf(log[..|log| - 1], command) + if last.command == command then [last] else []
  }

  /** Each request answered with its own tag. */
  function Answers(requests: seq<Request>): seq<Outcome> {
    seq(|requests|, i requires 0 <= i < |requests| =>
      Outcome(requests[i].seqno, requests[i].command, requests[i].tag))
  }

  function TagsOf(requests: seq<Request>): seq<Tag> {
    if |requests| == 0 then []
    else (if requests[0].tag.Some? then [requests[0].tag.value] else []) + TagsOf(requests[1..])
  }

  /** No tagged request behind an untagged one. */
  predicate Clean(requests: seq<Request>) {
    forall i, j :: 0 <= i < j < |requests| && requests[j].tag.Some? ==> requests[i].tag.Some?
  }

  predicate AllTagged(requests: seq<Request>) {
    forall i :: 0 <= i < |requests| ==> requests[i].tag.Some?
  }

  // ---------- the system ----------

  /** The client, how many requests of each command the server has answered in this
      session, and the `breakpointLocations` requests it has not. */
  datatype World = World(client: State, answered: map<Command, nat>, open: set<nat>)

  const START := World(FRESH, map[], {})

  function Answered(w: World, command: Command): nat {
    if command in w.answered then w.answered[command] else 0
  }

  /** The unanswered requests of a command, oldest first. */
  function Pending(w: World, command: Command): seq<Request> {
    var all := Of(w.client.sent, command);
    if Answered(w, command) <= |all| then all[Answered(w, command)..] else []
  }

  datatype Step =
    | Connect
    | Ask(call: Call)
    | AnswerInitialize(locations: bool, calls: seq<Call>)
    | Answer(command: Command, calls: seq<Call>)       // the oldest unanswered request of the command
    | AnswerLocations(seqno: nat, calls: seq<Call>)    // any unanswered one
    | Notify(event: Incoming, calls: seq<Call>)

  /** The request a call puts on the wire if there is one. */
  function Issued(s: State, call: Call): Option<Request> {
    var n := s.seqno + 1;
    match call
    case DoInitialize => Some(Request(n, Initialize, None))
    case GetFrames(thread) =>
      Some(Request(n, StackTrace, Some(Thread(if thread == NOT_FOUND then s.activeThread else thread))))
    case GetScopes(frame) => Some(Request(n, Scopes, Some(Frame(frame))))
    case GetChildrenVariables(reference, context) => Some(Request(n, Variables, Some(Parent(reference, context))))
    case GetVariableInfo(reference) => Some(Request(n, Variables, None))
    case SetBreakpointsFile(file) => Some(Request(n, SetBreakpoints, Some(File(file))))
    case LoadSource(reference, callback) =>
      if reference > 0 then Some(Request(n, Source, Some(Callback(callback)))) else None
    case EvaluateExpression(callback) => Some(Request(n, Evaluate, Some(Callback(callback))))
    case BreakpointLocations(file) => if s.locations then Some(Request(n, Locations, Some(File(file)))) else None
    case Launch => Some(Request(n, Plain("launch"), None))
    case Other(name, numbers) => Some(Request(n, Plain(name), None))
  }

  function DoCall(w: World, call: Call): World {
    var s := w.client;
    if s.connected || Issued(s, call).None? then
      World(Perform(s, call), w.answered,
            if call.BreakpointLocations? && s.locations then w.open + {s.seqno + 1} else w.open)
    else World(Perform(s, call), map[], {})
  }

  function DoCalls(w: World, calls: seq<Call>): World
    decreases calls
  {
    if |calls| == 0 then w else DoCalls(DoCall(w, calls[0]), calls[1..])
  }

  /** A caller must not ask for tagged variables while an untagged request for
      variables is unanswered. */
  predicate Allowed(w: World, call: Call) {
    call.GetChildrenVariables? ==> AllTagged(Pending(w, Variables))
  }

  predicate AllAllowed(w: World, calls: seq<Call>)
    decreases calls
  {
    |calls| == 0 || (Allowed(w, calls[0]) && AllAllowed(DoCall(w, calls[0]), calls[1..]))
  }

  /** The step up to the handlers it runs. */
  function Arrive(w: World, step: Step): World {
    match step
    case Connect => World(FRESH.(connected := true), map[], {})
    case Ask(call) => w
    case AnswerInitialize(locations, _) => w.(client := Accept(w.client, InitializeResponse(locations)))
    case Answer(command, _) =>
      if |Pending(w, command)| > 0 then
        World(Accept(w.client, Response(command, Pending(w, command)[0].seqno)),
              w.answered[command := Answered(w, command) + 1], w.open)
      else w
    case AnswerLocations(seqno, _) =>
      World(Accept(w.client, Response(Locations, seqno)), w.answered, w.open - {seqno})
    case Notify(event, _) => w.(client := Accept(w.client, event))
  }

  function Handlers(step: Step): seq<Call> {
    match step
    case Connect => []
    case Ask(call) => [call]
    case AnswerInitialize(_, calls) => calls
    case Answer(_, calls) => calls
    case AnswerLocations(_, calls) => calls
    case Notify(_, calls) => calls
  }

  function Next(w: World, step: Step): World {
    DoCalls(Arrive(w, step), Handlers(step))
  }

  predicate IsUncorrelated(message: Incoming) {
    message.Response? && !IsTracked(message.command) && message.command != Locations
  }

  /** The server answers tracked requests once each, in order, and nothing but
      `initialize` before the handshake is complete. */
  predicate Enabled(w: World, step: Step) {
    match step
    case Answer(command, _) => IsTracked(command) && w.client.handshake == Completed && |Pending(w, command)| > 0
    case AnswerLocations(seqno, _) => w.client.handshake == Completed && seqno in w.open
    case Notify(event, _) => event.Stopped? || event.Continued? || IsUncorrelated(event)
    case AnswerInitialize(_, _) => w.client.connected
    case _ => true
  }

  function Run(steps: seq<Step>): World {
    if |steps| == 0 then START else Next(Run(steps[..|steps| - 1]), steps[|steps| - 1])
  }

  predicate Possible(steps: seq<Step>) {
    |steps| == 0 || (Possible(steps[..|steps| - 1]) && Enabled(Run(steps[..|steps| - 1]), steps[|steps| - 1]))
  }

  /** No step asks for tagged variables behind an unanswered untagged request. */
  predicate Careful(steps: seq<Step>) {
    |steps| == 0 ||
    (Careful(steps[..|steps| - 1])
     && var w := Arrive(Run(steps[..|steps| - 1]), steps[|steps| - 1]);
        AllAllowed(w, Handlers(steps[|steps| - 1])))
  }

  // ---------- the invariants ----------

  /** Of one command's requests `all`, the first `n` were answered, once each, in order,
      each with its own tag; the queue is the tags of the rest, in order. */
  predicate Matches(all: seq<Request>, n: nat, queue: seq<Tag>, log: seq<Outcome>) {
    && n <= |all|
    && queue == TagsOf(all[n..])
    && Clean(all[n..])
    && log == Answers(all[..n])
  }

  predicate Aligned(w: World, command: Command) {
    && Matches(Of(w.client.sent, command), Answered(w, command), w.client.queues.Of(command),
               LogOf(w.client.log, command))
    && (command != Variables ==> AllTagged(Of(w.client.sent, command)))
  }

  /** Numbers on the wire strictly increase. */
  predicate Numbered(s: State) {
    && (forall i :: 0 <= i < |s.sent| ==> s.sent[i].seqno <= s.seqno)
    && (forall i, j :: 0 <= i < j < |s.sent| ==> s.sent[i].seqno < s.sent[j].seqno)
  }

  /** The file map has exactly the unanswered requests, each with its own file, and each
      answered one got its own file, once. */
  ghost predicate Filed(w: World) {
    var s := w.client;
    && s.files.Keys == w.open
    && (!s.connected ==> !s.locations)
    && (forall n :: n in s.files ==> Request(n, Locations, Some(File(s.files[n]))) in s.sent)
    && (forall o :: o in s.log && o.command == Locations ==>
          o.seqno !in w.open && Request(o.seqno, Locations, o.tag) in s.sent)
    && (forall i, j :: 0 <= i < j < |s.log| && s.log[i].command == Locations && s.log[j].command == Locations ==>
          s.log[i].seqno != s.log[j].seqno)
  }

  ghost predicate Inv(w: World) {
    && (forall c: Command :: IsTracked(c) && c != Variables ==> Aligned(w, c))
    && Numbered(w.client) && Filed(w)
  }

  // ---------- sequences ----------

  lemma OfAppend(sent: seq<Request>, r: Request, command: Command)
    ensures Of(sent + [r], command) == Of(sent, command) + if r.command == command then [r] else []
  {
    assert (sent + [r])[..|sent|] == sent;
  }

  lemma LogOfAppend(log: seq<Outcome>, o: Outcome, command: Command)
    ensures LogOf(log + [o], command) == LogOf(log, command) + if o.command == command then [o] else []
  {
    assert (log + [o])[..|log|] == log;
  }

  lemma {:induction false} TagsAppend(a: seq<Request>, r: Request)
    ensures TagsOf(a + [r]) == TagsOf(a) + if r.tag.Some? then [r.tag.value] else []
  {
    if |a| == 0 {
      assert a + [r] == [r];
      assert TagsOf([r][1..]) == [];
    } else {
      TagsAppend(a[1..], r);
      assert (a + [r])[1..] == a[1..] + [r];
    }
  }

  lemma {:induction false} NoTags(requests: seq<Request>)
    requires forall i :: 0 <= i < |requests| ==> requests[i].tag.None?
    ensures TagsOf(requests) == []
  {
    if |requests| > 0 {
      NoTags(requests[1..]);
    }
  }

  lemma {:induction false} SomeTags(requests: seq<Request>, k: nat)
    requires k < |requests| && requests[k].tag.Some?
    ensures TagsOf(requests) != []
  {
    if k > 0 {
      SomeTags(requests[1..], k - 1);
    }
  }

  // ---------- calls keep the invariants ----------

  lemma CallSends(s: State, call: Call)
    requires s.connected || Issued(s, call).None?
    ensures var t := Perform(s, call);
            match Issued(s, call)
            case None => t == s
            case Some(r) =>
              t.sent == s.sent + [r] && t.log == s.log && t.connected && t.locations == s.locations
              && r.seqno == s.seqno + 1 <= t.seqno
  {
  }

  lemma CallFiles(s: State, call: Call)
    requires s.connected && Issued(s, call).Some?
    ensures var r := Issued(s, call).value;
            if r.command == Locations then
              call.BreakpointLocations? && s.locations && r.tag == Some(File(call.file))
              && Perform(s, call).files == s.files[r.seqno := call.file]
            else
              Perform(s, call).files == s.files && !(call.BreakpointLocations? && s.locations)
  {
  }

  lemma CallQueues(s: State, call: Call, command: Command)
    requires s.connected && IsTracked(command) && Issued(s, call).Some?
    ensures var r := Issued(s, call).value;
            Perform(s, call).queues.Of(command)
            == s.queues.Of(command) + if r.command == command && r.tag.Some? then [r.tag.value] else []
    ensures Issued(s, call).value.command == command && command != Variables ==> Issued(s, call).value.tag.Some?
    ensures Issued(s, call).value.command == Variables && Issued(s, call).value.tag.Some? ==>
              call.GetChildrenVariables?
  {
  }

  lemma SendMatches(all: seq<Request>, n: nat, queue: seq<Tag>, log: seq<Outcome>, r: Request)
    requires Matches(all, n, queue, log) && (r.tag.Some? ==> AllTagged(all[n..]))
    ensures Matches(all + [r], n, queue + if r.tag.Some? then [r.tag.value] else [], log)
  {
    TagsAppend(all[n..], r);
    assert (all + [r])[n..] == all[n..] + [r];
    assert (all + [r])[..n] == all[..n];
  }

  lemma CallParts(w: World, call: Call, command: Command, r: Request)
    requires IsTracked(command) && w.client.connected && Issued(w.client, call) == Some(r)
    ensures var t := DoCall(w, call);
            && Of(t.client.sent, command) == Of(w.client.sent, command) + (if r.command == command then [r] else [])
            && t.client.queues.Of(command)
               == w.client.queues.Of(command) + (if r.command == command && r.tag.Some? then [r.tag.value] else [])
            && t.client.log == w.client.log && t.answered == w.answered
  {
    CallSends(w.client, call);
    CallQueues(w.client, call, command);
    OfAppend(w.client.sent, r, command);
  }

  lemma SendKeepsAligned(w: World, call: Call, command: Command, r: Request)
    requires IsTracked(command) && Aligned(w, command) && (command == Variables ==> Allowed(w, call))
    requires w.client.connected && Issued(w.client, call) == Some(r) && r.command == command
    ensures Aligned(DoCall(w, call), command)
  {
    var s, all, n := w.client, Of(w.client.sent, command), Answered(w, command);
    CallParts(w, call, command, r);
    CallQueues(s, call, command);
    SendMatches(all, n, s.queues.Of(command), LogOf(s.log, command), r);
    AlignedIs(DoCall(w, call), command, all + [r], n,
              s.queues.Of(command) + (if r.tag.Some? then [r.tag.value] else []), LogOf(s.log, command));
  }

  lemma CallKeepsAligned(w: World, call: Call, command: Command)
    requires IsTracked(command) && Aligned(w, command) && (command == Variables ==> Allowed(w, call))
    ensures Aligned(DoCall(w, call), command)
  {
    var s := w.client;
    if Issued(s, call).None? {
      CallSends(s, call);
    } else if !s.connected {
      FreshIsAligned(command);
    } else if Issued(s, call).value.command == command {
      SendKeepsAligned(w, call, command, Issued(s, call).value);
    } else {
      CallParts(w, call, command, Issued(s, call).value);
      AlignedIs(DoCall(w, call), command,
                Of(s.sent, command), Answered(w, command), s.queues.Of(command), LogOf(s.log, command));
    }
  }

  lemma FreshIsAligned(command: Command)
    requires IsTracked(command)
    ensures forall s: State ::
              s.sent == [] && s.log == [] && s.queues == FRESH.queues ==> Aligned(World(s, map[], {}), command)
  {
  }

  lemma CallKeepsNumbered(s: State, call: Call)
    requires Numbered(s)
    ensures Numbered(Perform(s, call))
  {
    if s.connected || Issued(s, call).None? {
      CallSends(s, call);
    }
  }

  lemma CallKeepsFiled(w: World, call: Call)
    requires Numbered(w.client) && Filed(w)
    ensures Filed(DoCall(w, call))
  {
    var s := w.client;
    if s.connected || Issued(s, call).None? {
      CallSends(s, call);
      if Issued(s, call).Some? {
        SendKeepsFiled(w, call, Issued(s, call).value);
      }
    }
  }

  lemma SendKeepsFiled(w: World, call: Call, r: Request)
    requires Numbered(w.client) && Filed(w) && w.client.connected && Issued(w.client, call) == Some(r)
    ensures Filed(DoCall(w, call))
  {
    var s, t := w.client, Perform(w.client, call);
    CallSends(s, call);
    CallFiles(s, call);
    assert r in t.sent && forall q :: q in s.sent ==> q in t.sent;
    assert forall q :: q in s.sent ==> q.seqno != r.seqno;
  }

  lemma CallKeeps(w: World, call: Call)
    requires Inv(w)
    ensures Inv(DoCall(w, call))
  {
    forall c: Command | IsTracked(c) && c != Variables ensures Aligned(DoCall(w, call), c) {
      CallKeepsAligned(w, call, c);
    }
    CallKeepsNumbered(w.client, call);
    CallKeepsFiled(w, call);
  }

  lemma {:induction false} CallsKeep(w: World, calls: seq<Call>)
    requires Inv(w)
    ensures Inv(DoCalls(w, calls)) && DoCalls(w, calls).client == PerformAll(w.client, calls)
    decreases calls
  {
    if |calls| > 0 {
      CallKeeps(w, calls[0]);
      CallsKeep(DoCall(w, calls[0]), calls[1..]);
    }
  }

  // ---------- messages keep the invariants ----------

  lemma TagsFirst(pending: seq<Request>)
    requires |pending| > 0 && Clean(pending)
    ensures if pending[0].tag.Some? then TagsOf(pending) == [pending[0].tag.value] + TagsOf(pending[1..])
            else TagsOf(pending) == [] && TagsOf(pending[1..]) == []
    ensures Clean(pending[1..])
  {
    if pending[0].tag.None? {
      NoTags(pending);
    }
  }

  /** The response gets its own request's tag. */
  lemma AnswerGetsOwnTag(w: World, command: Command)
    requires IsTracked(command) && Aligned(w, command) && |Pending(w, command)| > 0
    requires w.client.handshake == Completed
    ensures var r := Pending(w, command)[0];
            var t := Accept(w.client, Response(command, r.seqno));
            t.log == w.client.log + [Outcome(r.seqno, command, r.tag)]
            && t.queues == w.client.queues.With(command, TagsOf(Pending(w, command)[1..]))
            && t == w.client.(log := t.log, queues := t.queues)
  {
    TagsFirst(Pending(w, command));
    OfCommand(w.client.sent, command);
  }

  lemma {:induction false} OfCommand(sent: seq<Request>, command: Command)
    ensures forall i :: 0 <= i < |Of(sent, command)| ==> Of(sent, command)[i].command == command
    ensures forall r :: r in Of(sent, command) ==> r in sent
  {
    if |sent| > 0 {
      OfCommand(sent[..|sent| - 1], command);
    }
  }

  lemma AnswerMatches(all: seq<Request>, n: nat, queue: seq<Tag>, log: seq<Outcome>, o: Outcome)
    requires Matches(all, n, queue, log) && n < |all|
    requires o == Outcome(all[n].seqno, all[n].command, all[n].tag)
    ensures Matches(all, n + 1, TagsOf(all[n + 1..]), log + [o])
  {
    TagsFirst(all[n..]);
    assert all[n + 1..] == all[n..][1..];
    assert all[..n + 1] == all[..n] + [all[n]];
    assert Answers(all[..n + 1]) == Answers(all[..n]) + [o];
  }

  lemma QueueChanged(queues: Queues, changed: Command, command: Command, queue: seq<Tag>)
    requires IsTracked(changed)
    ensures queues.With(changed, queue).Of(command) == if command == changed then queue else queues.Of(command)
  {
  }

  /** The response gets its own request's tag, and only its own command's queue and log move. */
  lemma AnswerParts(w: World, command: Command, r: Request)
    requires IsTracked(command) && Aligned(w, command) && |Pending(w, command)| > 0
    requires w.client.handshake == Completed && r == Pending(w, command)[0]
    ensures r.command == command
    ensures var t := Arrive(w, Answer(command, []));
            && t.client.sent == w.client.sent && Answered(t, command) == Answered(w, command) + 1
            && t.client.queues.Of(command) == TagsOf(Of(w.client.sent, command)[Answered(w, command) + 1..])
            && LogOf(t.client.log, command) == LogOf(w.client.log, command) + [Outcome(r.seqno, command, r.tag)]
  {
    AnswerGetsOwnTag(w, command);
    OfCommand(w.client.sent, command);
    var pending, o := Pending(w, command), Outcome(r.seqno, command, r.tag);
    LogOfAppend(w.client.log, o, command);
    QueueChanged(w.client.queues, command, command, TagsOf(pending[1..]));
    assert pending[1..] == Of(w.client.sent, command)[Answered(w, command) + 1..];
  }

  lemma AnswerKeepsAnswered(w: World, command: Command)
    requires IsTracked(command) && Aligned(w, command) && |Pending(w, command)| > 0
    requires w.client.handshake == Completed
    ensures Aligned(Arrive(w, Answer(command, [])), command)
  {
    var s, all, n := w.client, Of(w.client.sent, command), Answered(w, command);
    var o := Outcome(all[n].seqno, command, all[n].tag);
    AnswerParts(w, command, all[n]);
    AnswerMatches(all, n, s.queues.Of(command), LogOf(s.log, command), o);
    AlignedIs(Arrive(w, Answer(command, [])), command, all, n + 1, TagsOf(all[n + 1..]), LogOf(s.log, command) + [o]);
  }

  lemma AnswerKeepsOthers(w: World, answered: Command, command: Command)
    requires IsTracked(answered) && IsTracked(command) && answered != command
    requires Aligned(w, command) && |Pending(w, answered)| > 0
    requires w.client.handshake == Completed
    ensures Aligned(Arrive(w, Answer(answered, [])), command)
  {
    var s := w.client;
    var message := Response(answered, Pending(w, answered)[0].seqno);
    OthersLeaveQueue(s, message, command);
    AlignedIs(Arrive(w, Answer(answered, [])), command,
              Of(s.sent, command), Answered(w, command), s.queues.Of(command), LogOf(s.log, command));
  }

  lemma AlignedIs(w: World, command: Command, all: seq<Request>, n: nat, queue: seq<Tag>, log: seq<Outcome>)
    requires Of(w.client.sent, command) == all && Answered(w, command) == n
    requires w.client.queues.Of(command) == queue && LogOf(w.client.log, command) == log
    requires Matches(all, n, queue, log) && (command != Variables ==> AllTagged(all))
    ensures Aligned(w, command)
  {
  }

  lemma DequeueLeavesOthers(s: State, changed: Command, requestSeq: nat, command: Command)
    requires changed != command
    ensures var t := Dequeue(s, changed, requestSeq);
            t.sent == s.sent && t.queues.Of(command) == s.queues.Of(command)
              && LogOf(t.log, command) == LogOf(s.log, command)
  {
    var queue := s.queues.Of(changed);
    LogOfAppend(s.log, Outcome(requestSeq, changed, if |queue| > 0 then Some(queue[0]) else None), command);
  }

  lemma LocationsLeaveQueue(s: State, requestSeq: nat, command: Command)
    requires IsTracked(command)
    ensures var t := Accept(s, Response(Locations, requestSeq));
            t.queues == s.queues && LogOf(t.log, command) == LogOf(s.log, command)
  {
    var tag := if requestSeq in s.files then Some(File(s.files[requestSeq])) else None;
    LogOfAppend(s.log, Outcome(requestSeq, Locations, tag), command);
  }

  /** A message that is no response to a command leaves its queue and log alone. */
  lemma OthersLeaveQueue(s: State, message: Incoming, command: Command)
    requires IsTracked(command)
    requires message.Response? ==> message.command != command
    ensures var t := Accept(s, message);
            t.sent == s.sent && t.queues.Of(command) == s.queues.Of(command)
              && LogOf(t.log, command) == LogOf(s.log, command)
  {
    AcceptSendsNothing(s, message);
    if message.Response? {
      if message.command == Locations {
        LocationsLeaveQueue(s, message.requestSeq, command);
      } else {
        DequeueLeavesOthers(s, message.command, message.requestSeq, command);
      }
    }
  }

  lemma LocationsKeepsFiled(w: World, seqno: nat)
    requires Filed(w) && w.client.handshake == Completed && seqno in w.open
    ensures Filed(Arrive(w, AnswerLocations(seqno, [])))
    ensures Accept(w.client, Response(Locations, seqno)).log
         == w.client.log + [Outcome(seqno, Locations, Some(File(w.client.files[seqno])))]
  {
  }

  lemma AnswerFiles(s: State, command: Command, requestSeq: nat)
    requires IsTracked(command)
    ensures var t := Accept(s, Response(command, requestSeq));
            && t == s.(queues := t.queues, log := t.log)
            && (t.log == s.log || exists o :: t.log == s.log + [o] && o.command == command)
  {
    var t := Accept(s, Response(command, requestSeq));
    assert t.log == s.log || t.log == s.log + [t.log[|s.log|]];
  }

  lemma AnswerKeepsFiled(w: World, command: Command)
    requires Filed(w) && IsTracked(command) && |Pending(w, command)| > 0
    ensures Filed(Arrive(w, Answer(command, [])))
  {
    AnswerFiles(w.client, command, Pending(w, command)[0].seqno);
  }

  lemma ArriveKeepsFiled(w: World, step: Step)
    requires Filed(w) && Enabled(w, step)
    ensures Filed(Arrive(w, step))
  {
    match step {
      case Answer(command, _) => AnswerKeepsFiled(w, command);
      case AnswerLocations(seqno, _) => LocationsKeepsFiled(w, seqno);
      case _ =>
    }
  }

  lemma AcceptSendsNothing(s: State, message: Incoming)
    ensures var t := Accept(s, message); t.sent == s.sent && t.seqno == s.seqno
  {
  }

  lemma ArriveSendsNothing(w: World, step: Step)
    ensures var s, t := w.client, Arrive(w, step).client;
            if step.Connect? then t.sent == [] else t.sent == s.sent && t.seqno == s.seqno
  {
    match step {
      case AnswerInitialize(locations, _) => AcceptSendsNothing(w.client, InitializeResponse(locations));
      case Answer(command, _) =>
        if |Pending(w, command)| > 0 {
          AcceptSendsNothing(w.client, Response(command, Pending(w, command)[0].seqno));
        }
      case AnswerLocations(seqno, _) => AcceptSendsNothing(w.client, Response(Locations, seqno));
      case Notify(event, _) => AcceptSendsNothing(w.client, event);
      case _ =>
    }
  }

  lemma ArriveKeepsNumbered(w: World, step: Step)
    requires Numbered(w.client)
    ensures Numbered(Arrive(w, step).client)
  {
    ArriveSendsNothing(w, step);
  }

  function MessageOf(step: Step): Option<Incoming> {
    match step
    case AnswerInitialize(locations, _) => Some(InitializeResponse(locations))
    case AnswerLocations(seqno, _) => Some(Response(Locations, seqno))
    case Notify(event, _) => Some(event)
    case _ => None
  }

  lemma OtherArrives(w: World, step: Step)
    requires Enabled(w, step) && !step.Answer? && !step.Connect? && !step.Ask?
    ensures var m := MessageOf(step);
            m.Some? && (m.value.Response? ==> !IsTracked(m.value.command))
            && Arrive(w, step).client == Accept(w.client, m.value)
            && Arrive(w, step).answered == w.answered
  {
  }

  lemma ArriveKeepsAligned(w: World, step: Step, command: Command)
    requires Enabled(w, step) && IsTracked(command) && Aligned(w, command)
    ensures Aligned(Arrive(w, step), command)
  {
    if step.Connect? {
      FreshIsAligned(command);
    } else if step.Answer? {
      assert Arrive(w, step) == Arrive(w, Answer(step.command, []));
      if step.command == command {
        AnswerKeepsAnswered(w, command);
      } else {
        AnswerKeepsOthers(w, step.command, command);
      }
    } else if !step.Ask? {
      OtherArrives(w, step);
      OthersLeaveQueue(w.client, MessageOf(step).value, command);
      AlignedIs(Arrive(w, step), command, Of(w.client.sent, command), Answered(w, command),
                w.client.queues.Of(command), LogOf(w.client.log, command));
    }
  }

  lemma ArriveKeeps(w: World, step: Step)
    requires Inv(w) && Enabled(w, step)
    ensures Inv(Arrive(w, step))
  {
    forall c: Command | IsTracked(c) && c != Variables ensures Aligned(Arrive(w, step), c) {
      ArriveKeepsAligned(w, step, c);
    }
    ArriveKeepsFiled(w, step);
    ArriveKeepsNumbered(w, step);
  }

  // ---------- runs ----------

  /** In every run, for every tracked command but `variables`: the queue is the tags of
      the unanswered requests, in order, and every response was passed on once, with its
      own request's tag. Wire numbers increase, and `breakpointLocations` responses get
      their own file in any order. */
  lemma {:induction false} RunKeeps(steps: seq<Step>)
    requires Possible(steps)
    ensures Inv(Run(steps))
  {
    if |steps| == 0 {
      forall c: Command | IsTracked(c) ensures Aligned(START, c) {
        FreshIsAligned(c);
      }
    } else {
      var before, step := Run(steps[..|steps| - 1]), steps[|steps| - 1];
      RunKeeps(steps[..|steps| - 1]);
      ArriveKeeps(before, step);
      CallsKeep(Arrive(before, step), Handlers(step));
    }
  }

  lemma {:induction false} CallsKeepAligned(w: World, calls: seq<Call>, command: Command)
    requires IsTracked(command) && Aligned(w, command) && (command == Variables ==> AllAllowed(w, calls))
    ensures Aligned(DoCalls(w, calls), command)
    decreases calls
  {
    if |calls| > 0 {
      CallKeepsAligned(w, calls[0], command);
      CallsKeepAligned(DoCall(w, calls[0]), calls[1..], command);
    }
  }

  lemma {:induction false} CarefulRunKeepsVariables(steps: seq<Step>)
    requires Possible(steps) && Careful(steps)
    ensures Aligned(Run(steps), Variables)
  {
    if |steps| == 0 {
      FreshIsAligned(Variables);
    } else {
      var before, step := Run(steps[..|steps| - 1]), steps[|steps| - 1];
      CarefulRunKeepsVariables(steps[..|steps| - 1]);
      ArriveKeepsAligned(before, step, Variables);
      CallsKeepAligned(Arrive(before, step), Handlers(step), Variables);
    }
  }

  // ---------- runs without GetVariableInfo ----------

  predicate NoInfo(calls: seq<Call>) {
    forall i :: 0 <= i < |calls| ==> !calls[i].GetVariableInfo?
  }

  predicate VariablesTagged(w: World) {
    forall r :: r in w.client.sent && r.command == Variables ==> r.tag.Some?
  }

  lemma {:induction false} TaggedAllows(w: World, calls: seq<Call>)
    requires VariablesTagged(w) && NoInfo(calls)
    ensures AllAllowed(w, calls) && VariablesTagged(DoCalls(w, calls))
    decreases calls
  {
    OfCommand(w.client.sent, Variables);
    if |calls| > 0 {
      var s, call := w.client, calls[0];
      if s.connected || Issued(s, call).None? {
        CallSends(s, call);
      }
      TaggedAllows(DoCall(w, call), calls[1..]);
    }
  }

  /** Without `GetVariableInfo` every run is careful. */
  lemma {:induction false} NoInfoIsCareful(steps: seq<Step>)
    requires Possible(steps) && forall i :: 0 <= i < |steps| ==> NoInfo(Handlers(steps[i]))
    ensures Careful(steps) && VariablesTagged(Run(steps))
  {
    if |steps| > 0 {
      var before, step := Run(steps[..|steps| - 1]), steps[|steps| - 1];
      NoInfoIsCareful(steps[..|steps| - 1]);
      ArriveSendsNothing(before, step);
      assert VariablesTagged(Arrive(before, step));
      TaggedAllows(Arrive(before, step), Handlers(step));
    }
  }

  // ---------- what an untagged request does ----------

  /** The responses to `requests`, one after the other. */
  function AnswerAll(s: State, requests: seq<Request>): State
    decreases |requests|
  {
    if |requests| == 0 then s
    else AnswerAll(Accept(s, Response(requests[0].command, requests[0].seqno)), requests[1..])
  }

  /** What responses to `requests` pass on when the queue is `tags`. */
  function Given(tags: seq<Tag>, requests: seq<Request>): seq<Outcome> {
    seq(|requests|, i requires 0 <= i < |requests| =>
      Outcome(requests[i].seqno, requests[i].command, if i < |tags| then Some(tags[i]) else None))
  }

  lemma {:induction false} AnswerAllGives(s: State, requests: seq<Request>)
    requires s.handshake == Completed && forall r :: r in requests ==> r.command == Variables
    ensures AnswerAll(s, requests).log == s.log + Given(s.queues.variables, requests)
    decreases |requests|
  {
    if |requests| > 0 {
      var tags := s.queues.variables;
      var t := Accept(s, Response(Variables, requests[0].seqno));
      AnswerAllGives(t, requests[1..]);
      assert t.queues.variables == if |tags| > 0 then tags[1..] else tags;
      assert Given(tags, requests) == [Given(tags, requests)[0]] + Given(t.queues.variables, requests[1..]);
      assert t.log == s.log + [Given(tags, requests)[0]];
    }
  }

  lemma {:induction false} GivenOwn(requests: seq<Request>)
    ensures Given(TagsOf(requests), requests) == Answers(requests) <==> Clean(requests)
    decreases |requests|
  {
    var given, answers := Given(TagsOf(requests), requests), Answers(requests);
    if |requests| == 0 {
      assert given == answers;
    } else if requests[0].tag.Some? {
      var rest := requests[1..];
      GivenOwn(rest);
      assert answers == [answers[0]] + Answers(rest);
      assert given == [answers[0]] + Given(TagsOf(rest), rest);
      assert given[1..] == Given(TagsOf(rest), rest) && answers[1..] == Answers(rest);
      assert Clean(rest) <==> Clean(requests) by {
        assert forall j :: 0 < j < |requests| ==> requests[j] == rest[j - 1];
        assert forall j :: 0 <= j < |rest| ==> rest[j] == requests[j + 1];
      }
    } else if k :| 0 <= k < |requests| && requests[k].tag.Some? {
      SomeTags(requests, k);
      assert given[0].tag.Some? && answers[0].tag.None?;
    } else {
      NoTags(requests);
      assert given == answers;
    }
  }

  /** The responses to the unanswered `variables` requests will get their own tags. */
  predicate Owns(w: World) {
    Given(w.client.queues.variables, Pending(w, Variables)) == Answers(Pending(w, Variables))
  }

  /** That is what the responses do; and while the queue is the tags of these requests, it
      holds if and only if no tagged one is behind an untagged one. */
  lemma OwnVariables(w: World)
    ensures w.client.handshake == Completed ==>
              var pending := Pending(w, Variables);
              (AnswerAll(w.client, pending).log == w.client.log + Answers(pending) <==> Owns(w))
    ensures w.client.queues.variables == TagsOf(Pending(w, Variables)) ==> (Owns(w) <==> Clean(Pending(w, Variables)))
  {
    OfCommand(w.client.sent, Variables);
    var log, pending, tags := w.client.log, Pending(w, Variables), w.client.queues.variables;
    GivenOwn(pending);
    if w.client.handshake == Completed {
      AnswerAllGives(w.client, pending);
      assert (log + Given(tags, pending))[|log|..] == Given(tags, pending);
      assert (log + Answers(pending))[|log|..] == Answers(pending);
    }
  }

  /** Asking for tagged variables behind an untagged request spoils the tags. */
  lemma CarelessSpoils(w: World, call: Call)
    requires Aligned(w, Variables) && w.client.connected && !Allowed(w, call)
    ensures !Owns(DoCall(w, call))
  {
    var s, t := w.client, DoCall(w, call);
    var r := Issued(s, call).value;
    var all, n, pending := Of(s.sent, Variables), Answered(w, Variables), Pending(w, Variables);
    CallParts(w, call, Variables, r);
    TagsAppend(pending, r);
    assert Pending(t, Variables) == pending + [r] by {
      assert (all + [r])[n..] == all[n..] + [r];
    }
    var k :| 0 <= k < |pending| && pending[k].tag.None?;
    assert (pending + [r])[k].tag.None? && (pending + [r])[|pending|] == r;
    OwnVariables(t);
  }

  // ---------- runs, moment by moment ----------

  /** Before each of the calls and after the last one. */
  predicate OwnsThrough(w: World, calls: seq<Call>)
    decreases calls
  {
    Owns(w) && (|calls| == 0 || OwnsThrough(DoCall(w, calls[0]), calls[1..]))
  }

  /** At every moment of the run. */
  predicate AlwaysOwns(steps: seq<Step>) {
    |steps| == 0 ||
    (AlwaysOwns(steps[..|steps| - 1])
     && OwnsThrough(Arrive(Run(steps[..|steps| - 1]), steps[|steps| - 1]), Handlers(steps[|steps| - 1])))
  }

  predicate Idle(w: World) {
    !w.client.connected ==> w.client.sent == []
  }

  lemma IdleCall(w: World, call: Call)
    requires Idle(w)
    ensures Idle(DoCall(w, call))
  {
    var s := w.client;
    if s.connected || Issued(s, call).None? {
      CallSends(s, call);
    }
  }

  lemma IdleArrive(w: World, step: Step)
    requires Idle(w)
    ensures Idle(Arrive(w, step))
  {
    ArriveSendsNothing(w, step);
  }

  lemma {:induction false} CallsOwn(w: World, calls: seq<Call>)
    requires Aligned(w, Variables) && Idle(w)
    ensures AllAllowed(w, calls) <==> OwnsThrough(w, calls)
    ensures Idle(DoCalls(w, calls))
    decreases calls
  {
    OwnVariables(w);
    if |calls| > 0 {
      var t := DoCall(w, calls[0]);
      IdleCall(w, calls[0]);
      if Allowed(w, calls[0]) {
        CallKeepsAligned(w, calls[0], Variables);
        CallsOwn(t, calls[1..]);
      } else {
        CarelessSpoils(w, calls[0]);
        IdleCalls(t, calls[1..]);
      }
    }
  }

  lemma {:induction false} IdleCalls(w: World, calls: seq<Call>)
    requires Idle(w)
    ensures Idle(DoCalls(w, calls))
    decreases calls
  {
    if |calls| > 0 {
      IdleCall(w, calls[0]);
      IdleCalls(DoCall(w, calls[0]), calls[1..]);
    }
  }

  lemma {:induction false} IdleRun(steps: seq<Step>)
    ensures Idle(Run(steps))
  {
    if |steps| > 0 {
      var front, step := steps[..|steps| - 1], steps[|steps| - 1];
      IdleRun(front);
      IdleArrive(Run(front), step);
      IdleCalls(Arrive(Run(front), step), Handlers(step));
    }
  }

  /** At every moment of a run the responses to come will get their own tags, if and only
      if the run never asks for tagged variables behind an unanswered untagged request. */
  lemma {:induction false} CarefulIff(steps: seq<Step>)
    requires Possible(steps)
    ensures Careful(steps) <==> AlwaysOwns(steps)
  {
    if |steps| > 0 {
      var front, step := steps[..|steps| - 1], steps[|steps| - 1];
      CarefulIff(front);
      if Careful(front) {
        CarefulRunKeepsVariables(front);
        IdleRun(front);
        IdleArrive(Run(front), step);
        ArriveKeepsAligned(Run(front), step, Variables);
        CallsOwn(Arrive(Run(front), step), Handlers(step));
      }
    }
  }

  // ---------- responses at any time ----------

  /** As `Enabled`, but responses may come before the handshake is complete. */
  predicate EnabledAnytime(w: World, step: Step) {
    match step
    case Answer(command, _) => IsTracked(command) && |Pending(w, command)| > 0
    case AnswerLocations(seqno, _) => seqno in w.open
    case _ => Enabled(w, step)
  }

  predicate PossibleAnytime(steps: seq<Step>) {
    |steps| == 0 ||
    (PossibleAnytime(steps[..|steps| - 1]) && EnabledAnytime(Run(steps[..|steps| - 1]), steps[|steps| - 1]))
  }

  /** A response to the command before the handshake is complete. */
  predicate Early(w: World, step: Step, command: Command) {
    step.Answer? && step.command == command && w.client.handshake != Completed
  }

  predicate NeverEarly(steps: seq<Step>, command: Command) {
    |steps| == 0 ||
    (NeverEarly(steps[..|steps| - 1], command) && !Early(Run(steps[..|steps| - 1]), steps[|steps| - 1], command))
  }

  /** The requests of the command that were answered so far, and no others, were each passed
      on once, in order, with their own tags. */
  predicate PassedOn(w: World, command: Command) {
    var all, n := Of(w.client.sent, command), Answered(w, command);
    n <= |all| && LogOf(w.client.log, command) == Answers(all[..n])
  }

  predicate AlwaysPassedOn(steps: seq<Step>, command: Command) {
    PassedOn(Run(steps), command) && (|steps| == 0 || AlwaysPassedOn(steps[..|steps| - 1], command))
  }

  /** Before the handshake is complete a response changes nothing in the client. */
  lemma EarlyIsDropped(w: World, step: Step)
    requires EnabledAnytime(w, step) && (step.Answer? || step.AnswerLocations?) && w.client.handshake != Completed
    ensures Arrive(w, step).client == w.client
  {
  }

  lemma AnytimeKeeps(w: World, step: Step, command: Command)
    requires EnabledAnytime(w, step) && !Early(w, step, command) && IsTracked(command) && Aligned(w, command)
    requires command == Variables ==> AllAllowed(Arrive(w, step), Handlers(step))
    ensures Aligned(Next(w, step), command)
  {
    if Enabled(w, step) {
      ArriveKeepsAligned(w, step, command);
    } else {
      EarlyIsDropped(w, step);
    }
    CallsKeepAligned(Arrive(w, step), Handlers(step), command);
  }

  lemma {:induction false} NeverEarlyKeeps(steps: seq<Step>, command: Command)
    requires PossibleAnytime(steps) && NeverEarly(steps, command) && IsTracked(command)
    requires command == Variables ==> Careful(steps)
    ensures Aligned(Run(steps), command)
  {
    if |steps| == 0 {
      FreshIsAligned(command);
    } else {
      NeverEarlyKeeps(steps[..|steps| - 1], command);
      AnytimeKeeps(Run(steps[..|steps| - 1]), steps[|steps| - 1], command);
    }
  }

  /** Calls of a connected client leave what was passed on, and what was answered. */
  lemma {:induction false} CallsLeave(w: World, calls: seq<Call>)
    requires w.client.connected
    ensures var t := DoCalls(w, calls); t.client.connected && t.client.log == w.client.log && t.answered == w.answered
    decreases calls
  {
    if |calls| > 0 {
      CallSends(w.client, calls[0]);
      CallsLeave(DoCall(w, calls[0]), calls[1..]);
    }
  }

  lemma EarlySpoils(w: World, step: Step, command: Command)
    requires EnabledAnytime(w, step) && Early(w, step, command) && Idle(w) && PassedOn(w, command)
    ensures !PassedOn(Next(w, step), command)
  {
    OfCommand(w.client.sent, command);
    EarlyIsDropped(w, step);
    CallsLeave(Arrive(w, step), Handlers(step));
  }

  /** For each command: at every moment of a run each answered request has been passed on
      with its own tag, if and only if no response to the command came before the handshake
      was complete. For `variables` the run must also be careful. */
  lemma {:induction false} NeverEarlyIff(steps: seq<Step>, command: Command)
    requires PossibleAnytime(steps) && IsTracked(command) && (command == Variables ==> Careful(steps))
    ensures AlwaysPassedOn(steps, command) <==> NeverEarly(steps, command)
  {
    if NeverEarly(steps, command) {
      NeverEarlyKeeps(steps, command);
    }
    if |steps| > 0 {
      var front, step := steps[..|steps| - 1], steps[|steps| - 1];
      NeverEarlyIff(front, command);
      if AlwaysPassedOn(front, command) && Early(Run(front), step, command) {
        IdleRun(front);
        EarlySpoils(Run(front), step, command);
      }
    }
  }

  // ---------- runs that go wrong ----------

  const MIXUP: seq<Step> :=
    [Connect, AnswerInitialize(false, [GetVariableInfo(5), GetChildrenVariables(7, Watch)])]

  lemma MixupSends()
    ensures var s := Run(MIXUP).client;
            s.sent == [Request(1, Variables, None), Request(2, Variables, Some(Parent(7, Watch)))]
            && s.handshake == Completed && s.queues == FRESH.queues.(variables := [Parent(7, Watch)]) && s.log == []
    ensures Run(MIXUP).answered == map[]
  {
    assert MIXUP[..1] == [Connect] && [Connect][..0] == [];
    assert Run([Connect]) == World(FRESH.(connected := true), map[], {}) by {
      assert Run([Connect]) == Next(Run([Connect][..0]), Connect);
    }
    var w := Arrive(Run(MIXUP[..1]), MIXUP[1]);
    var calls := MIXUP[1].calls;
    assert calls[1..] == [calls[1]] && calls[1..][1..] == [];
    var b := DoCall(w, calls[0]);
    assert DoCalls(w, calls) == DoCall(b, calls[1]) by {
      assert DoCalls(b, calls[1..]) == DoCalls(DoCall(b, calls[1]), []);
    }
  }

  lemma MixupPends()
    ensures Pending(Run(MIXUP), Variables)
         == [Request(1, Variables, None), Request(2, Variables, Some(Parent(7, Watch)))]
  {
    MixupSends();
    var first, second := Request(1, Variables, None), Request(2, Variables, Some(Parent(7, Watch)));
    assert [first, second] == [first] + [second] && [first] == [] + [first];
    OfAppend([first], second, Variables);
    OfAppend([], first, Variables);
  }

  /** A run that goes wrong: the response about variable 5 is taken for the children of 7. */
  lemma InfoTakesTag()
    ensures var w := Run(MIXUP);
            Pending(w, Variables) == [Request(1, Variables, None), Request(2, Variables, Some(Parent(7, Watch)))]
            && Accept(w.client, Response(Variables, 1)).log == [Outcome(1, Variables, Some(Parent(7, Watch)))]
  {
    MixupSends();
    MixupPends();
  }

  /** A response that arrives before the handshake is complete is dropped, and the next
      response to its command is then given its tag. */
  lemma EarlyAnswerShifts(s: State, command: Command, early: nat, seqno: nat, locations: bool)
    requires s.handshake != Completed && IsTracked(command) && |s.queues.Of(command)| > 0
    ensures var t := Accept(Accept(s, Response(command, early)), InitializeResponse(locations));
            t.queues == s.queues && t.log == s.log
            && Accept(t, Response(command, seqno)).log
               == s.log + [Outcome(seqno, command, Some(s.queues.Of(command)[0]))]
  {
    assert Accept(s, Response(command, early)) == s;
  }

  const EARLY: seq<Step> := [Connect, Ask(GetScopes(1)), Ask(GetScopes(2))]

  lemma EarlySends()
    ensures var s := Run(EARLY).client;
            s.sent == [Request(1, Scopes, Some(Frame(1))), Request(3, Scopes, Some(Frame(2)))]
            && s.handshake == NotPerformed && s.queues.scopes == [Frame(1), Frame(2)] && s.log == []
  {
    assert EARLY[..2] == [EARLY[0], EARLY[1]] && EARLY[..2][..1] == [Connect] && [Connect][..0] == [];
    assert Run([Connect]) == World(FRESH.(connected := true), map[], {}) by {
      assert Run([Connect]) == Next(Run([Connect][..0]), Connect);
    }
    var w := Run([Connect]);
    var one := DoCall(w, GetScopes(1));
    AskOne(w, GetScopes(1));
    assert Run(EARLY[..2]) == one;
    AskOne(one, GetScopes(2));
    assert Run(EARLY) == DoCall(one, GetScopes(2));
  }

  lemma AskOne(w: World, call: Call)
    ensures Next(w, Ask(call)) == DoCall(w, call)
  {
    var calls := [call];
    assert calls[1..] == [];
    assert DoCalls(w, calls) == DoCalls(DoCall(w, call), []) == DoCall(w, call);
  }

  /** A run in which this happens: the scopes of frame 2 are taken for those of frame 1. */
  lemma EarlyAnswerRun()
    ensures var s := Run(EARLY).client;
            var t := Accept(Accept(s, Response(Scopes, 1)), InitializeResponse(false));
            s.sent == [Request(1, Scopes, Some(Frame(1))), Request(3, Scopes, Some(Frame(2)))]
            && Accept(t, Response(Scopes, 3)).log == [Outcome(3, Scopes, Some(Frame(1)))]
  {
    EarlySends();
    EarlyAnswerShifts(Run(EARLY).client, Scopes, 1, 3, false);
  }

  // ---------- the client runs it ----------

  method Take(client: Client, w: World, step: Step)
    requires client.View() == w.client && Enabled(w, step) && Inv(w)
    modifies client
    ensures client.View() == Next(w, step).client
  {
    ArriveKeeps(w, step);
    CallsKeep(Arrive(w, step), Handlers(step));
    match step {
      case Connect => client.SetTransport();
      case Ask(call) => client.DoAll([call]);
      case AnswerInitialize(locations, calls) => client.OnMessage(InitializeResponse(locations), calls);
      case Answer(command, calls) => client.OnMessage(Response(command, Pending(w, command)[0].seqno), calls);
      case AnswerLocations(seqno, calls) => client.OnMessage(Response(Locations, seqno), calls);
      case Notify(event, calls) => client.OnMessage(event, calls);
    }
  }

  /** A new client driven through a run ends in the run's state. */
  method Drive(steps: seq<Step>) returns (client: Client)
    requires Possible(steps)
    ensures fresh(client) && client.View() == Run(steps).client
  {
    client := new Client();
    var w, i := START, 0;
    while i < |steps|
      invariant 0 <= i <= |steps| && fresh(client)
      invariant Possible(steps[..i]) && w == Run(steps[..i]) && client.View() == w.client
    {
      Prefix(steps, i);
      RunKeeps(steps[..i]);
      Take(client, w, steps[i]);
      w := Next(w, steps[i]);
      i := i + 1;
    }
    assert steps[..i] == steps;
  }

  lemma {:induction false} Prefix(steps: seq<Step>, i: nat)
    requires Possible(steps) && i < |steps|
    ensures Possible(steps[..i + 1]) && Enabled(Run(steps[..i]), steps[i])
    ensures Run(steps[..i + 1]) == Next(Run(steps[..i]), steps[i])
    decreases |steps|
  {
    assert steps[..i + 1][..i] == steps[..i];
    if i + 1 < |steps| {
      Prefix(steps[..|steps| - 1], i);
      assert steps[..|steps| - 1][..i + 1] == steps[..i + 1] && steps[..|steps| - 1][..i] == steps[..i];
    } else {
      assert steps[..i + 1] == steps;
    }
  }
}
