/** Protocol messages and their JSON forms. */
module DapMessages {
  import opened JsonAccess
  import opened JsonValue

  datatype Source = Source(name: string, path: string, sourceReference: int)

  datatype SourceBreakpoint = SourceBreakpoint(line: int, condition: string)

  datatype Breakpoint = Breakpoint(id: int, verified: bool, message: string, source: Source,
                                   line: int, column: int, endLine: int, endColumn: int)

  datatype StackFrame = StackFrame(id: int, name: string, source: Source, line: int,
                                   instructionPointerReference: string)

  datatype Hint = Hint(kind: string, attributes: seq<string>, visibility: string)

  datatype Variable = Variable(name: string, value: string, kind: string, variablesReference: int, hint: Hint)

  datatype BreakpointLocation = BreakpointLocation(line: int, column: int, endLine: int, endColumn: int)

  // ---------- Source ----------

  function SourceTo(s: Source): Json {
    Object([Member("name", Str(s.name))]
           + (if s.path != "" then [Member("path", Str(s.path))] else [])
           + (if s.sourceReference > 0 then [Member("sourceReference", Int(s.sourceReference))] else []))
  }

  function SourceFrom(json: Option<Json>): Source {
    Source(GetString(Get(json, "name"), ""), GetString(Get(json, "path"), ""),
           GetInteger(Get(json, "sourceReference"), 0))
  }

  /** What survives the wire: a negative reference is not sent, and is read as none. */
  function Sent(s: Source): Source {
    if s.sourceReference < 0 then s.(sourceReference := 0) else s
  }

  lemma SourceRoundTrip(s: Source)
    ensures SourceFrom(Some(SourceTo(s))) == Sent(s)
  {
    var ms := SourceTo(s).members;
    LookupAt(ms, 0);
    if s.path != "" {
      assert ms[1] == Member("path", Str(s.path));
      LookupAt(ms, 1);
    } else {
      LookupMissing(ms, "path");
    }
    if s.sourceReference > 0 {
      assert ms[|ms| - 1] == Member("sourceReference", Int(s.sourceReference));
      LookupAt(ms, |ms| - 1);
    } else {
      LookupMissing(ms, "sourceReference");
    }
  }

  // ---------- the other records ----------

  function SourceBreakpointTo(b: SourceBreakpoint): Json {
    Object([Member("line", Int(b.line)), Member("condition", Str(b.condition))])
  }

  function SourceBreakpointFrom(json: Option<Json>): SourceBreakpoint {
    SourceBreakpoint(GetInteger(Get(json, "line"), -1), GetString(Get(json, "condition"), ""))
  }

  lemma SourceBreakpointRoundTrip(b: SourceBreakpoint)
    ensures SourceBreakpointFrom(Some(SourceBreakpointTo(b))) == b
  {
    var ms := SourceBreakpointTo(b).members;
    LookupAt(ms, 0);
    LookupAt(ms, 1);
  }

  function BreakpointTo(b: Breakpoint): Json {
    Object([Member("id", Int(b.id)), Member("verified", Bool(b.verified)), Member("message", Str(b.message)),
            Member("line", Int(b.line)), Member("column", Int(b.column)), Member("endLine", Int(b.endLine)),
            Member("endColumn", Int(b.endColumn)), Member("source", SourceTo(b.source))])
  }

  function BreakpointFrom(json: Option<Json>): Breakpoint {
    Breakpoint(GetInteger(Get(json, "id"), -1), GetBool(Get(json, "verified"), false),
               GetString(Get(json, "message"), ""), SourceFrom(Get(json, "source")),
               GetInteger(Get(json, "line"), -1), GetInteger(Get(json, "column"), -1),
               GetInteger(Get(json, "endLine"), -1), GetInteger(Get(json, "endColumn"), -1))
  }

  lemma BreakpointPositions(b: Breakpoint)
    ensures var j := Some(BreakpointTo(b));
            Get(j, "line") == Some(Int(b.line)) && Get(j, "column") == Some(Int(b.column))
            && Get(j, "endLine") == Some(Int(b.endLine)) && Get(j, "endColumn") == Some(Int(b.endColumn))
  {
    var ms := BreakpointTo(b).members;
    LookupAt(ms, 3);
    LookupAt(ms, 4);
    LookupAt(ms, 5);
    LookupAt(ms, 6);
  }

  lemma BreakpointFlags(b: Breakpoint)
    ensures var j := Some(BreakpointTo(b));
            Get(j, "id") == Some(Int(b.id)) && Get(j, "verified") == Some(Bool(b.verified))
            && Get(j, "message") == Some(Str(b.message)) && Get(j, "source") == Some(SourceTo(b.source))
  {
    var ms := BreakpointTo(b).members;
    LookupAt(ms, 0);
    LookupAt(ms, 1);
    LookupAt(ms, 2);
    LookupAt(ms, 7);
  }

  lemma BreakpointRoundTrip(b: Breakpoint)
    ensures BreakpointFrom(Some(BreakpointTo(b))) == b.(source := Sent(b.source))
  {
    BreakpointPositions(b);
    BreakpointFlags(b);
    SourceRoundTrip(b.source);
  }

  function LocationTo(b: BreakpointLocation): Json {
    Object([Member("line", Int(b.line)), Member("column", Int(b.column)), Member("endLine", Int(b.endLine)),
            Member("endColumn", Int(b.endColumn))])
  }

  /** The line is read under another key, and the end line not at all. */
  function LocationFrom(json: Option<Json>): BreakpointLocation {
    BreakpointLocation(GetInteger(Get(json, "restart"), -1), GetInteger(Get(json, "column"), -1), -1,
                       GetInteger(Get(json, "endColumn"), -1))
  }

  /** A location survives the wire if and only if it has neither line. */
  lemma LocationSurvives(b: BreakpointLocation)
    ensures LocationFrom(Some(LocationTo(b))) == b <==> b.line == -1 && b.endLine == -1
  {
    var ms := LocationTo(b).members;
    LookupAt(ms, 1);
    LookupAt(ms, 3);
    LookupMissing(ms, "restart");
  }

  function StackFrameTo(f: StackFrame): Json {
    Object([Member("name", Str(f.name)), Member("id", Int(f.id)), Member("line", Int(f.line)),
            Member("instructionPointerReference", Str(f.instructionPointerReference)),
            Member("source", SourceTo(f.source))])
  }

  function StackFrameFrom(json: Option<Json>): StackFrame {
    StackFrame(GetInteger(Get(json, "id"), -1), GetString(Get(json, "name"), ""), SourceFrom(Get(json, "source")),
               GetInteger(Get(json, "line"), -1), GetString(Get(json, "instructionPointerReference"), ""))
  }

  lemma StackFrameRoundTrip(f: StackFrame)
    ensures StackFrameFrom(Some(StackFrameTo(f))) == f.(source := Sent(f.source))
  {
    var ms := StackFrameTo(f).members;
    LookupAt(ms, 0);
    LookupAt(ms, 1);
    LookupAt(ms, 2);
    LookupAt(ms, 3);
    LookupAt(ms, 4);
    SourceRoundTrip(f.source);
  }

  function HintTo(h: Hint): Json {
    Object([Member("kind", Str(h.kind)), Member("visibility", Str(h.visibility)),
            Member("attributes", StringsJson(h.attributes))])
  }

  function HintFrom(json: Option<Json>): Hint {
    Hint(GetString(Get(json, "kind"), ""), Strings(Get(json, "attributes")), GetString(Get(json, "visibility"), ""))
  }

  lemma HintRoundTrip(h: Hint)
    ensures HintFrom(Some(HintTo(h))) == h
  {
    var ms := HintTo(h).members;
    LookupAt(ms, 0);
    LookupAt(ms, 1);
    LookupAt(ms, 2);
    assert Strings(Some(StringsJson(h.attributes))) == h.attributes;
  }

  function VariableTo(v: Variable): Json {
    Object([Member("name", Str(v.name)), Member("value", Str(v.value)), Member("type", Str(v.kind)),
            Member("variablesReference", Int(v.variablesReference)), Member("presentationHint", HintTo(v.hint))])
  }

  function VariableFrom(json: Option<Json>): Variable {
    Variable(GetString(Get(json, "name"), ""), GetString(Get(json, "value"), ""), GetString(Get(json, "type"), ""),
             GetInteger(Get(json, "variablesReference"), -1), HintFrom(Get(json, "presentationHint")))
  }

  lemma VariableRoundTrip(v: Variable)
    ensures VariableFrom(Some(VariableTo(v))) == v
  {
    var ms := VariableTo(v).members;
    LookupAt(ms, 0);
    LookupAt(ms, 1);
    LookupAt(ms, 2);
    LookupAt(ms, 3);
    LookupAt(ms, 4);
    HintRoundTrip(v.hint);
  }

  // ---------- messages ----------

  /** What every response carries. */
  datatype Head = Head(seqno: int, requestSeq: int, success: bool, message: string)

  datatype Message =
    | SetBreakpointsRequest(seqno: int, source: Source, lines: seq<SourceBreakpoint>)
    | SetBreakpointsResponse(head: Head, breakpoints: seq<Breakpoint>)
    | StackTraceResponse(head: Head, stackFrames: seq<StackFrame>)
    | VariablesResponse(head: Head, variables: seq<Variable>)

  function RequestHead(seqno: int, command: string): seq<Member> {
    [Member("seq", Int(seqno)), Member("type", Str("request")), Member("command", Str(command))]
  }

  function ResponseHead(h: Head, command: string): seq<Member> {
    [Member("seq", Int(h.seqno)), Member("type", Str("response")), Member("request_seq", Int(h.requestSeq)),
     Member("success", Bool(h.success)), Member("message", Str(h.message)), Member("command", Str(command))]
  }

  function HeadFrom(json: Option<Json>): Head {
    Head(GetInteger(Get(json, "seq"), -1), GetInteger(Get(json, "request_seq"), -1),
         GetBool(Get(json, "success"), false), GetString(Get(json, "message"), ""))
  }

  function SourceBreakpointsTo(bs: seq<SourceBreakpoint>): seq<Json> {
    seq(|bs|, i requires 0 <= i < |bs| => SourceBreakpointTo(bs[i]))
  }

  function BreakpointsTo(bs: seq<Breakpoint>): seq<Json> {
    seq(|bs|, i requires 0 <= i < |bs| => BreakpointTo(bs[i]))
  }

  function StackFramesTo(fs: seq<StackFrame>): seq<Json> {
    seq(|fs|, i requires 0 <= i < |fs| => StackFrameTo(fs[i]))
  }

  function VariablesTo(vs: seq<Variable>): seq<Json> {
    seq(|vs|, i requires 0 <= i < |vs| => VariableTo(vs[i]))
  }

  function Body(name: string, items: seq<Json>): Member {
    Member("body", Object([Member(name, Array(items))]))
  }

  function To(m: Message): Json {
    match m
    case SetBreakpointsRequest(seqno, source, lines) =>
      Object(RequestHead(seqno, "setBreakpoints")
             + [Member("arguments", Object([Member("source", SourceTo(source)),
                                            Member("breakpoints", Array(SourceBreakpointsTo(lines)))]))])
    case SetBreakpointsResponse(head, breakpoints) =>
      Object(ResponseHead(head, "setBreakpoints") + [Body("breakpoints", BreakpointsTo(breakpoints))])
    case StackTraceResponse(head, stackFrames) =>
      Object(ResponseHead(head, "stackTrace") + [Body("stackFrames", StackFramesTo(stackFrames))])
    case VariablesResponse(head, variables) =>
      Object(ResponseHead(head, "variables") + [Body("variables", VariablesTo(variables))])
  }

  function SourceBreakpointsFrom(arr: Option<Json>): seq<SourceBreakpoint> {
    seq(Count(arr), i requires 0 <= i < Count(arr) => SourceBreakpointFrom(Child(arr, i)))
  }

  function BreakpointsFrom(arr: Option<Json>): seq<Breakpoint> {
    seq(Count(arr), i requires 0 <= i < Count(arr) => BreakpointFrom(Child(arr, i)))
  }

  function StackFramesFrom(arr: Option<Json>): seq<StackFrame> {
    seq(Count(arr), i requires 0 <= i < Count(arr) => StackFrameFrom(Child(arr, i)))
  }

  function VariablesFrom(arr: Option<Json>): seq<Variable> {
    seq(Count(arr), i requires 0 <= i < Count(arr) => VariableFrom(Child(arr, i)))
  }

  /** `ObjGenerator::FromJSON`: the class registered for the type and command, filled in. */
  function From(json: Json): Option<Message> {
    var j := Some(json);
    var kind, command := GetString(Get(j, "type"), ""), GetString(Get(j, "command"), "");
    if kind == "request" && command == "setBreakpoints" then
      var arguments := Get(j, "arguments");
      Some(SetBreakpointsRequest(GetInteger(Get(j, "seq"), -1), SourceFrom(Get(arguments, "source")),
                                 SourceBreakpointsFrom(Get(arguments, "breakpoints"))))
    else if kind == "response" && command == "setBreakpoints" then
      Some(SetBreakpointsResponse(HeadFrom(j), BreakpointsFrom(Get(Get(j, "body"), "breakpoints"))))
    else if kind == "response" && command == "stackTrace" then
      Some(StackTraceResponse(HeadFrom(j), StackFramesFrom(Get(Get(j, "body"), "stackFrames"))))
    else if kind == "response" && command == "variables" then
      Some(VariablesResponse(HeadFrom(j), VariablesFrom(Get(Get(j, "body"), "variables"))))
    else None
  }

  // ---------- the identity ----------

  /** What survives the wire: everything but negative source references. */
  function SentMessage(m: Message): Message {
    match m
    case SetBreakpointsRequest(seqno, source, lines) => SetBreakpointsRequest(seqno, Sent(source), lines)
    case SetBreakpointsResponse(head, bs) =>
      SetBreakpointsResponse(head, seq(|bs|, i requires 0 <= i < |bs| => bs[i].(source := Sent(bs[i].source))))
    case StackTraceResponse(head, fs) =>
      StackTraceResponse(head, seq(|fs|, i requires 0 <= i < |fs| => fs[i].(source := Sent(fs[i].source))))
    case VariablesResponse(head, variables) => m
  }

  /** No source in the message has a negative reference. */
  predicate References(m: Message) {
    match m
    case SetBreakpointsRequest(_, source, _) => source.sourceReference >= 0
    case SetBreakpointsResponse(_, bs) => forall i :: 0 <= i < |bs| ==> bs[i].source.sourceReference >= 0
    case StackTraceResponse(_, fs) => forall i :: 0 <= i < |fs| ==> fs[i].source.sourceReference >= 0
    case VariablesResponse(_, _) => true
  }

  lemma SentIsSame(m: Message)
    ensures SentMessage(m) == m <==> References(m)
  {
    match m {
      case SetBreakpointsResponse(_, bs) =>
        if SentMessage(m) == m {
          assert forall i :: 0 <= i < |bs| ==> SentMessage(m).breakpoints[i] == bs[i];
        }
      case StackTraceResponse(_, fs) =>
        if SentMessage(m) == m {
          assert forall i :: 0 <= i < |fs| ==> SentMessage(m).stackFrames[i] == fs[i];
        }
      case _ =>
    }
  }

  lemma HeadStart(h: Head, command: string, last: Member)
    ensures var j := Some(Object(ResponseHead(h, command) + [last]));
            Get(j, "seq") == Some(Int(h.seqno)) && Get(j, "type") == Some(Str("response"))
            && Get(j, "request_seq") == Some(Int(h.requestSeq)) && Get(j, "success") == Some(Bool(h.success))
  {
    var ms := ResponseHead(h, command) + [last];
    LookupAt(ms, 0);
    LookupAt(ms, 1);
    LookupAt(ms, 2);
    LookupAt(ms, 3);
  }

  lemma HeadEnd(h: Head, command: string, last: Member)
    requires last.key == "body"
    ensures var j := Some(Object(ResponseHead(h, command) + [last]));
            Get(j, "message") == Some(Str(h.message)) && Get(j, "command") == Some(Str(command))
            && Get(j, "body") == Some(last.value)
  {
    var ms := ResponseHead(h, command) + [last];
    LookupAt(ms, 4);
    LookupAt(ms, 5);
    LookupAt(ms, 6);
  }

  lemma HeadRoundTrip(h: Head, command: string, last: Member)
    requires last.key == "body"
    ensures var j := Some(Object(ResponseHead(h, command) + [last]));
            HeadFrom(j) == h && GetString(Get(j, "type"), "") == "response"
            && GetString(Get(j, "command"), "") == command && Get(j, "body") == Some(last.value)
  {
    HeadStart(h, command, last);
    HeadEnd(h, command, last);
  }

  lemma BodyItems(name: string, items: seq<Json>)
    ensures Get(Some(Body(name, items).value), name) == Some(Array(items))
  {
    LookupAt([Member(name, Array(items))], 0);
  }

  /** Reading a message back from its JSON form. */
  lemma MessageRoundTrip(m: Message)
    ensures From(To(m)) == Some(SentMessage(m))
  {
    match m {
      case SetBreakpointsRequest(seqno, source, lines) => RequestRoundTrip(m);
      case SetBreakpointsResponse(head, bs) =>
        var items := BreakpointsTo(bs);
        HeadRoundTrip(head, "setBreakpoints", Body("breakpoints", items));
        BodyItems("breakpoints", items);
        forall i | 0 <= i < |bs| ensures BreakpointFrom(Some(items[i])) == bs[i].(source := Sent(bs[i].source)) {
          BreakpointRoundTrip(bs[i]);
        }
        assert BreakpointsFrom(Some(Array(items))) == SentMessage(m).breakpoints;
      case StackTraceResponse(head, fs) =>
        var items := StackFramesTo(fs);
        HeadRoundTrip(head, "stackTrace", Body("stackFrames", items));
        BodyItems("stackFrames", items);
        forall i | 0 <= i < |fs| ensures StackFrameFrom(Some(items[i])) == fs[i].(source := Sent(fs[i].source)) {
          StackFrameRoundTrip(fs[i]);
        }
        assert StackFramesFrom(Some(Array(items))) == SentMessage(m).stackFrames;
      case VariablesResponse(head, vs) =>
        var items := VariablesTo(vs);
        HeadRoundTrip(head, "variables", Body("variables", items));
        BodyItems("variables", items);
        forall i | 0 <= i < |vs| ensures VariableFrom(Some(items[i])) == vs[i] {
          VariableRoundTrip(vs[i]);
        }
        assert VariablesFrom(Some(Array(items))) == vs;
    }
  }

  lemma RequestRoundTrip(m: Message)
    requires m.SetBreakpointsRequest?
    ensures From(To(m)) == Some(SentMessage(m))
  {
    var items := SourceBreakpointsTo(m.lines);
    var args := [Member("source", SourceTo(m.source)), Member("breakpoints", Array(items))];
    var ms := RequestHead(m.seqno, "setBreakpoints") + [Member("arguments", Object(args))];
    LookupAt(ms, 0);
    LookupAt(ms, 1);
    LookupAt(ms, 2);
    LookupAt(ms, 3);
    LookupAt(args, 0);
    LookupAt(args, 1);
    SourceRoundTrip(m.source);
    forall i | 0 <= i < |m.lines| ensures SourceBreakpointFrom(Some(items[i])) == m.lines[i] {
      SourceBreakpointRoundTrip(m.lines[i]);
    }
    assert SourceBreakpointsFrom(Some(Array(items))) == m.lines;
  }

  // ---------- the loops that build and read arrays ----------

  method AddHead(h: Head, command: string) returns (json: Json)
    ensures json == Object(ResponseHead(h, command))
  {
    json := Object([]);
    json := Add(json, "seq", Int(h.seqno));
    json := Add(json, "type", Str("response"));
    json := Add(json, "request_seq", Int(h.requestSeq));
    json := Add(json, "success", Bool(h.success));
    json := Add(json, "message", Str(h.message));
    json := Add(json, "command", Str(command));
  }

  method BuildRequest(seqno: int, source: Source, lines: seq<SourceBreakpoint>) returns (json: Json)
    ensures json == To(SetBreakpointsRequest(seqno, source, lines))
  {
    var arr, i := Array([]), 0;
    while i < |lines|
      invariant 0 <= i <= |lines| && arr.Array? && arr.items == SourceBreakpointsTo(lines)[..i]
    {
      arr := Add(arr, "", SourceBreakpointTo(lines[i]));
      i := i + 1;
    }
    assert SourceBreakpointsTo(lines)[..i] == SourceBreakpointsTo(lines);
    var arguments := Add(Add(Object([]), "source", SourceTo(source)), "breakpoints", arr);
    assert arguments.members == [Member("source", SourceTo(source)), Member("breakpoints", arr)];
    json := Add(Object([]), "seq", Int(seqno));
    json := Add(json, "type", Str("request"));
    json := Add(json, "command", Str("setBreakpoints"));
    assert json.members == RequestHead(seqno, "setBreakpoints");
    json := Add(json, "arguments", arguments);
  }

  method BuildSetBreakpoints(head: Head, breakpoints: seq<Breakpoint>) returns (json: Json)
    ensures json == To(SetBreakpointsResponse(head, breakpoints))
  {
    var arr, i := Array([]), 0;
    while i < |breakpoints|
      invariant 0 <= i <= |breakpoints| && arr.Array? && arr.items == BreakpointsTo(breakpoints)[..i]
    {
      arr := Add(arr, "", BreakpointTo(breakpoints[i]));
      i := i + 1;
    }
    assert BreakpointsTo(breakpoints)[..i] == BreakpointsTo(breakpoints);
    json := AddHead(head, "setBreakpoints");
    var body := Add(Object([]), "breakpoints", arr);
    assert body.members == [Member("breakpoints", arr)];
    json := Add(json, "body", body);
  }

  method BuildStackTrace(head: Head, stackFrames: seq<StackFrame>) returns (json: Json)
    ensures json == To(StackTraceResponse(head, stackFrames))
  {
    var arr, i := Array([]), 0;
    while i < |stackFrames|
      invariant 0 <= i <= |stackFrames| && arr.Array? && arr.items == StackFramesTo(stackFrames)[..i]
    {
      arr := Add(arr, "", StackFrameTo(stackFrames[i]));
      i := i + 1;
    }
    assert StackFramesTo(stackFrames)[..i] == StackFramesTo(stackFrames);
    json := AddHead(head, "stackTrace");
    var body := Add(Object([]), "stackFrames", arr);
    assert body.members == [Member("stackFrames", arr)];
    json := Add(json, "body", body);
  }

  method BuildVariables(head: Head, variables: seq<Variable>) returns (json: Json)
    ensures json == To(VariablesResponse(head, variables))
  {
    var arr, i := Array([]), 0;
    while i < |variables|
      invariant 0 <= i <= |variables| && arr.Array? && arr.items == VariablesTo(variables)[..i]
    {
      arr := Add(arr, "", VariableTo(variables[i]));
      i := i + 1;
    }
    assert VariablesTo(variables)[..i] == VariablesTo(variables);
    json := AddHead(head, "variables");
    var body := Add(Object([]), "variables", arr);
    assert body.members == [Member("variables", arr)];
    json := Add(json, "body", body);
  }

  method ReadLines(arguments: Option<Json>) returns (lines: seq<SourceBreakpoint>)
    ensures lines == SourceBreakpointsFrom(Get(arguments, "breakpoints"))
  {
    var arr := Get(arguments, "breakpoints");
    var size, i := Count(arr), 0;
    lines := [];
    while i < size
      invariant 0 <= i <= size && lines == SourceBreakpointsFrom(arr)[..i]
    {
      lines := lines + [SourceBreakpointFrom(Child(arr, i))];
      i := i + 1;
    }
  }

  method ReadBreakpoints(json: Option<Json>) returns (breakpoints: seq<Breakpoint>)
    ensures breakpoints == BreakpointsFrom(Get(Get(json, "body"), "breakpoints"))
  {
    var arr := Get(Get(json, "body"), "breakpoints");
    var size, i := Count(arr), 0;
    breakpoints := [];
    while i < size
      invariant 0 <= i <= size && breakpoints == BreakpointsFrom(arr)[..i]
    {
      breakpoints := breakpoints + [BreakpointFrom(Child(arr, i))];
      i := i + 1;
    }
  }

  method ReadStackFrames(json: Option<Json>) returns (stackFrames: seq<StackFrame>)
    ensures stackFrames == StackFramesFrom(Get(Get(json, "body"), "stackFrames"))
  {
    var arr := Get(Get(json, "body"), "stackFrames");
    var count, i := Count(arr), 0;
    stackFrames := [];
    while i < count
      invariant 0 <= i <= count && stackFrames == StackFramesFrom(arr)[..i]
    {
      stackFrames := stackFrames + [StackFrameFrom(Child(arr, i))];
      i := i + 1;
    }
  }

  /** Unlike the others, this one does not clear the list it extends. */
  method ReadVariables(json: Option<Json>, existing: seq<Variable>) returns (variables: seq<Variable>)
    ensures variables == existing + VariablesFrom(Get(Get(json, "body"), "variables"))
  {
    var arr := Get(Get(json, "body"), "variables");
    var count, i := Count(arr), 0;
    variables := existing;
    while i < count
      invariant 0 <= i <= count && variables == existing + VariablesFrom(arr)[..i]
    {
      variables := variables + [VariableFrom(Child(arr, i))];
      i := i + 1;
    }
  }
}
