/** The client's session: what each request and each message does to its state. */
module Session {
  import opened JsonValue

  const NOT_FOUND: int := -1

  datatype Context = Clipboard | Hover | Repl | VariablesContext | Watch

  datatype Command = Initialize | StackTrace | Scopes | Variables | SetBreakpoints | Source | Evaluate | Locations
                   | Plain(name: string)

  /** What the client remembers for a request, to hand to the response. */
  datatype Tag = Thread(id: int) | Frame(id: int) | Parent(reference: int, context: Context)
               | File(path: string) | Callback(ticket: nat)

  /** A request on the wire, with the tag its sender gave it. */
  datatype Request = Request(seqno: nat, command: Command, tag: Option<Tag>)

  /** A response passed on: which request it answered, and the tag it was given. */
  datatype Outcome = Outcome(seqno: nat, command: Command, tag: Option<Tag>)

  datatype Handshake = NotPerformed | InProgress | Completed

  /** The commands correlated by a queue. */
  predicate IsTracked(command: Command) {
    command == StackTrace || command == Scopes || command == Variables || command == SetBreakpoints
    || command == Source || command == Evaluate
  }

  datatype Queues = Queues(stackTrace: seq<Tag>, scopes: seq<Tag>, variables: seq<Tag>,
                           setBreakpoints: seq<Tag>, source: seq<Tag>, evaluate: seq<Tag>) {

    function Of(command: Command): seq<Tag> {
      match command
      case StackTrace => stackTrace
      case Scopes => scopes
      case Variables => variables
      case SetBreakpoints => setBreakpoints
      case Source => source
      case Evaluate => evaluate
      case _ => []
    }

    function With(command: Command, queue: seq<Tag>): Queues {
      match command
      case StackTrace => this.(stackTrace := queue)
      case Scopes => this.(scopes := queue)
      case Variables => this.(variables := queue)
      case SetBreakpoints => this.(setBreakpoints := queue)
      case Source => this.(source := queue)
      case Evaluate => this.(evaluate := queue)
      case _ => this
    }
  }

  /** The session fields, the requests handed to the transport in this session, and the
      responses passed on. */
  datatype State = State(seqno: nat, handshake: Handshake, connected: bool, activeThread: int, canInteract: bool,
                         locations: bool, files: map<nat, string>, queues: Queues,
                         sent: seq<Request>, log: seq<Outcome>)

  const FRESH: State := State(0, NotPerformed, false, NOT_FOUND, false, false, map[],
                              Queues([], [], [], [], [], []), [], [])

  // ---------- requests ----------

  datatype Call =
    | DoInitialize
    | GetFrames(thread: int)
    | GetScopes(frame: int)
    | GetChildrenVariables(reference: int, context: Context)
    | GetVariableInfo(reference: int)
    | SetBreakpointsFile(file: string)
    | LoadSource(reference: int, callback: nat)
    | EvaluateExpression(callback: nat)
    | BreakpointLocations(file: string)
    | Launch
    | Other(name: string, numbers: nat)   // a request without a tag, allocating one or two numbers

  function Enqueue(s: State, command: Command, tag: Tag): State {
    s.(queues := s.queues.With(command, s.queues.Of(command) + [tag]))
  }

  /** `MakeRequest` and `SendRequest`: the first of `numbers` new numbers goes on the
      wire; without a transport the session is reset. */
  function Emit(s: State, command: Command, tag: Option<Tag>, numbers: nat): State {
    if s.connected then
      s.(seqno := s.seqno + numbers, sent := s.sent + [Request(s.seqno + 1, command, tag)])
    else FRESH
  }

  function Perform(s: State, call: Call): State {
    match call
    case DoInitialize => Emit(s, Initialize, None, 1).(handshake := InProgress)
    case GetFrames(thread) =>
      var tag := Thread(if thread == NOT_FOUND then s.activeThread else thread);
      Emit(Enqueue(s, StackTrace, tag), StackTrace, Some(tag), 1)
    case GetScopes(frame) => Emit(Enqueue(s, Scopes, Frame(frame)), Scopes, Some(Frame(frame)), 2)
    case GetChildrenVariables(reference, context) =>
      Emit(Enqueue(s, Variables, Parent(reference, context)), Variables, Some(Parent(reference, context)), 1)
    case GetVariableInfo(reference) => Emit(s, Variables, None, 1)
    case SetBreakpointsFile(file) => Emit(Enqueue(s, SetBreakpoints, File(file)), SetBreakpoints, Some(File(file)), 2)
    case LoadSource(reference, callback) =>
      if reference > 0 then Emit(Enqueue(s, Source, Callback(callback)), Source, Some(Callback(callback)), 1) else s
    case EvaluateExpression(callback) =>
      Emit(Enqueue(s, Evaluate, Callback(callback)), Evaluate, Some(Callback(callback)), 1)
    case BreakpointLocations(file) =>
      if s.locations then
        var after := Emit(s, Locations, Some(File(file)), 1);
        after.(files := after.files[s.seqno + 1 := file])
      else s
    case Launch => Emit(s.(activeThread := NOT_FOUND), Plain("launch"), None, 2)
    case Other(name, numbers) => Emit(s, Plain(name), None, if numbers == 2 then 2 else 1)
  }

  function PerformAll(s: State, calls: seq<Call>): State
    decreases calls
  {
    if |calls| == 0 then s else PerformAll(Perform(s, calls[0]), calls[1..])
  }

  // ---------- messages ----------

  datatype Incoming =
    | InitializeResponse(locations: bool)
    | Response(command: Command, requestSeq: nat)
    | Stopped(thread: int)
    | Continued

  /** A response to a tracked command takes the front of its queue. */
  function Dequeue(s: State, command: Command, requestSeq: nat): State {
    var queue := s.queues.Of(command);
    if |queue| > 0 then
      s.(queues := s.queues.With(command, queue[1..]), log := s.log + [Outcome(requestSeq, command, Some(queue[0]))])
    else if command == Source || command == Evaluate then s
    else s.(log := s.log + [Outcome(requestSeq, command, None)])
  }

  predicate IsStep(command: Command) {
    command == Plain("stepIn") || command == Plain("stepOut") || command == Plain("next") || command
      == Plain("continue")
  }

  /** `OnMessage`, up to the call of the handler or callback. */
  function Accept(s: State, message: Incoming): State {
    if s.handshake != Completed then
      match message
      case InitializeResponse(locations) => s.(handshake := Completed, locations := s.locations || locations)
      case _ => s
    else
      match message
      case InitializeResponse(_) => s
      case Stopped(thread) => s.(canInteract := true, activeThread := thread)
      case Continued => s.(canInteract := false)
      case Response(command, requestSeq) =>
        if IsTracked(command) then Dequeue(s, command, requestSeq)
        else if command == Locations then
          if requestSeq in s.files then
            s.(files := s.files - {requestSeq},
               log := s.log + [Outcome(requestSeq, Locations, Some(File(s.files[requestSeq])))])
          else s.(log := s.log + [Outcome(requestSeq, Locations, None)])
        else if IsStep(command) then s.(canInteract := false)
        else s
  }

  // ---------- the client object ----------

  class Client {
    var seqno: nat
    var handshake: Handshake
    var connected: bool
    var activeThread: int
    var canInteract: bool
    var locations: bool
    var requestIdToFilepath: map<nat, string>
    var framesQueue: seq<Tag>
    var scopesQueue: seq<Tag>
    var variablesQueue: seq<Tag>
    var loadSourcesQueue: seq<Tag>
    var evaluateQueue: seq<Tag>
    var sourceBreakpointsQueue: seq<Tag>
    var sent: seq<Request>
    var log: seq<Outcome>

    function View(): State
      reads this
    {
      State(seqno, handshake, connected, activeThread, canInteract, locations, requestIdToFilepath,
            Queues(framesQueue, scopesQueue, variablesQueue, sourceBreakpointsQueue, loadSourcesQueue, evaluateQueue),
            sent, log)
    }

    constructor ()
      ensures View() == FRESH
    {
      seqno, handshake, connected, activeThread, canInteract := 0, NotPerformed, false, NOT_FOUND, false;
      locations, requestIdToFilepath := false, map[];
      framesQueue, scopesQueue, variablesQueue := [], [], [];
      loadSourcesQueue, evaluateQueue, sourceBreakpointsQueue := [], [], [];
      sent, log := [], [];
    }

    method Reset()
      modifies this
      ensures View() == FRESH
    {
      connected := false;
      seqno := 0;
      handshake := NotPerformed;
      activeThread := NOT_FOUND;
      canInteract := false;
      requestIdToFilepath := map[];
      locations := false;
      ClearQueues();
      sent, log := [], [];
    }

    method ClearQueues()
      modifies this`loadSourcesQueue, this`framesQueue, this`scopesQueue, this`variablesQueue
      modifies this`sourceBreakpointsQueue, this`evaluateQueue
      ensures framesQueue == scopesQueue == variablesQueue == []
      ensures sourceBreakpointsQueue == loadSourcesQueue == evaluateQueue == []
    {
      loadSourcesQueue := [];
      framesQueue := [];
      scopesQueue := [];
      variablesQueue := [];
      sourceBreakpointsQueue := [];
      evaluateQueue := [];
    }

    method SetTransport()
      modifies this
      ensures View() == FRESH.(connected := true)
    {
      Reset();
      connected := true;
    }

    method GetNextSequence() returns (n: nat)
      modifies this`seqno
      ensures n == seqno == old(seqno) + 1
    {
      seqno := seqno + 1;
      n := seqno;
    }

    /** Two allocations for `MakeRequest() = MakeRequest()`: the right one is kept. */
    method TakeNumber(numbers: nat) returns (n: nat)
      requires numbers == 1 || numbers == 2
      modifies this`seqno
      ensures n == old(seqno) + 1 && seqno == old(seqno) + numbers
    {
      n := GetNextSequence();
      if numbers == 2 {
        var _ := GetNextSequence();
      }
    }

    method SendRequest(request: Request) returns (ok: bool)
      modifies this
      ensures ok == old(connected)
      ensures View() == if old(connected) then old(View()).(sent := old(sent) + [request]) else FRESH
    {
      if connected {
        sent := sent + [request];
        ok := true;
      } else {
        Reset();
        ok := false;
      }
    }

    method DoInitialize()
      modifies this
      ensures View() == Perform(old(View()), Call.DoInitialize)
    {
      var n := TakeNumber(1);
      var _ := SendRequest(Request(n, Initialize, None));
      handshake := InProgress;
    }

    method GetFrames(threadId: int)
      modifies this
      ensures View() == Perform(old(View()), Call.GetFrames(threadId))
    {
      var n := TakeNumber(1);
      var tag := Thread(if threadId == NOT_FOUND then activeThread else threadId);
      framesQueue := framesQueue + [tag];
      var _ := SendRequest(Request(n, StackTrace, Some(tag)));
    }

    method GetScopes(frameId: int)
      modifies this
      ensures View() == Perform(old(View()), Call.GetScopes(frameId))
    {
      var n := TakeNumber(2);
      scopesQueue := scopesQueue + [Frame(frameId)];
      var _ := SendRequest(Request(n, Scopes, Some(Frame(frameId))));
    }

    method GetChildrenVariables(reference: int, context: Context)
      modifies this
      ensures View() == Perform(old(View()), Call.GetChildrenVariables(reference, context))
    {
      var n := TakeNumber(1);
      variablesQueue := variablesQueue + [Parent(reference, context)];
      var _ := SendRequest(Request(n, Variables, Some(Parent(reference, context))));
    }

    method GetVariableInfo(reference: int)
      modifies this
      ensures View() == Perform(old(View()), Call.GetVariableInfo(reference))
    {
      var n := TakeNumber(1);
      var _ := SendRequest(Request(n, Variables, None));
    }

    method SetBreakpointsFile(file: string)
      modifies this
      ensures View() == Perform(old(View()), Call.SetBreakpointsFile(file))
    {
      var n := TakeNumber(2);
      sourceBreakpointsQueue := sourceBreakpointsQueue + [File(file)];
      var _ := SendRequest(Request(n, SetBreakpoints, Some(File(file))));
    }

    method LoadSource(reference: int, callback: nat) returns (queued: bool)
      modifies this
      ensures View() == Perform(old(View()), Call.LoadSource(reference, callback)) && queued == (reference > 0)
    {
      if reference > 0 {
        loadSourcesQueue := loadSourcesQueue + [Callback(callback)];
        var n := TakeNumber(1);
        var _ := SendRequest(Request(n, Source, Some(Callback(callback))));
        return true;
      }
      return false;
    }

    method EvaluateExpression(callback: nat)
      modifies this
      ensures View() == Perform(old(View()), Call.EvaluateExpression(callback))
    {
      evaluateQueue := evaluateQueue + [Callback(callback)];
      var n := TakeNumber(1);
      var _ := SendRequest(Request(n, Evaluate, Some(Callback(callback))));
    }

    method BreakpointLocations(file: string)
      modifies this
      ensures View() == Perform(old(View()), Call.BreakpointLocations(file))
    {
      if !locations {
        return;
      }
      var n := TakeNumber(1);
      var _ := SendRequest(Request(n, Locations, Some(File(file))));
      requestIdToFilepath := requestIdToFilepath[n := file];
    }

    method Launch()
      modifies this
      ensures View() == Perform(old(View()), Call.Launch)
    {
      activeThread := NOT_FOUND;
      var n := TakeNumber(2);
      var _ := SendRequest(Request(n, Plain("launch"), None));
    }

    method Other(name: string, numbers: nat)
      modifies this
      ensures View() == Perform(old(View()), Call.Other(name, numbers))
    {
      var n := TakeNumber(if numbers == 2 then 2 else 1);
      var _ := SendRequest(Request(n, Plain(name), None));
    }

    /** What a handler or callback does with the client. */
    method Do(call: Call)
      modifies this
      ensures View() == Perform(old(View()), call)
    {
      match call {
        case DoInitialize => DoInitialize();
        case GetFrames(thread) => GetFrames(thread);
        case GetScopes(frame) => GetScopes(frame);
        case GetChildrenVariables(reference, context) => GetChildrenVariables(reference, context);
        case GetVariableInfo(reference) => GetVariableInfo(reference);
        case SetBreakpointsFile(file) => SetBreakpointsFile(file);
        case LoadSource(reference, callback) => var _ := LoadSource(reference, callback);
        case EvaluateExpression(callback) => EvaluateExpression(callback);
        case BreakpointLocations(file) => BreakpointLocations(file);
        case Launch => Launch();
        case Other(name, numbers) => Other(name, numbers);
      }
    }

    method DoAll(calls: seq<Call>)
      modifies this
      ensures View() == PerformAll(old(View()), calls)
    {
      var i := 0;
      assert calls[0..] == calls;
      while i < |calls|
        invariant 0 <= i <= |calls|
        invariant PerformAll(View(), calls[i..]) == PerformAll(old(View()), calls)
      {
        assert calls[i..][0] == calls[i] && calls[i..][1..] == calls[i + 1..];
        Do(calls[i]);
        i := i + 1;
      }
    }

    /** `OnMessage`. The tag leaves its queue before the handler or callback runs, so
        whatever that does, `calls`, comes after. */
    method OnMessage(message: Incoming, calls: seq<Call>)
      modifies this
      ensures View() == PerformAll(Accept(old(View()), message), calls)
      ensures old(handshake) == Completed && calls == [] ==>
                && (message.Stopped? ==> activeThread == message.thread && canInteract)
                && (message.Continued? ==> activeThread == old(activeThread) && !canInteract)
    {
      if handshake != Completed {
        if message.InitializeResponse? {
          handshake := Completed;
          locations := locations || message.locations;
        }
        DoAll(calls);
        return;
      }
      match message {
        case InitializeResponse(_) =>
        case Stopped(thread) => canInteract := true; activeThread := thread;
        case Continued => canInteract := false;
        case Response(command, requestSeq) => OnResponse(command, requestSeq);
      }
      DoAll(calls);
    }

    /** Takes the front of a command's queue, if there is one. */
    method TakeTag(command: Command) returns (tag: Option<Tag>)
      requires IsTracked(command)
      modifies this`framesQueue, this`scopesQueue, this`variablesQueue
      modifies this`sourceBreakpointsQueue, this`loadSourcesQueue, this`evaluateQueue
      ensures var queue := old(View()).queues.Of(command);
              if |queue| > 0 then
                tag == Some(queue[0])
                && View() == old(View()).(queues := old(View()).queues.With(command, queue[1..]))
              else tag == None && View() == old(View())
    {
      tag := None;
      if command == StackTrace {
        if framesQueue != [] {
          tag, framesQueue := Some(framesQueue[0]), framesQueue[1..];
        }
      } else if command == Scopes {
        if scopesQueue != [] {
          tag, scopesQueue := Some(scopesQueue[0]), scopesQueue[1..];
        }
      } else if command == Variables {
        if variablesQueue != [] {
          tag, variablesQueue := Some(variablesQueue[0]), variablesQueue[1..];
        }
      } else if command == SetBreakpoints {
        if sourceBreakpointsQueue != [] {
          tag, sourceBreakpointsQueue := Some(sourceBreakpointsQueue[0]), sourceBreakpointsQueue[1..];
        }
      } else if command == Source {
        if loadSourcesQueue != [] {
          tag, loadSourcesQueue := Some(loadSourcesQueue[0]), loadSourcesQueue[1..];
        }
      } else if evaluateQueue != [] {
        tag, evaluateQueue := Some(evaluateQueue[0]), evaluateQueue[1..];
      }
    }

    method OnResponse(command: Command, requestSeq: nat)
      requires handshake == Completed
      modifies this
      ensures View() == Accept(old(View()), Response(command, requestSeq))
    {
      var tag := None;
      if IsStep(command) {
        canInteract := false;
        return;
      } else if command == Locations {
        if requestSeq in requestIdToFilepath {
          tag := Some(File(requestIdToFilepath[requestSeq]));
          requestIdToFilepath := requestIdToFilepath - {requestSeq};
        }
      } else if IsTracked(command) {
        tag := TakeTag(command);
        if tag == None && (command == Source || command == Evaluate) {
          return;
        }
      } else {
        return;
      }
      log := log + [Outcome(requestSeq, command, tag)];
    }
  }
}
