/** From a message on one side of the connection to the same message on the other. */
module EndToEnd {
  import opened DapMessages
  import Decimal
  import opened Framing
  import opened JsonAccess
  import opened JsonParser
  import opened JsonPrinter
  import opened JsonRoundTrip
  import opened JsonValue
  import opened Transport

  predicate IsInt32(n: int) { INT_MIN <= n <= INT_MAX }

  predicate SourceOk(s: Source) {
    NulFree(s.name) && NulFree(s.path) && IsInt32(s.sourceReference)
  }

  predicate LineOk(b: SourceBreakpoint) { IsInt32(b.line) && NulFree(b.condition) }

  predicate BreakpointOk(b: Breakpoint) {
    IsInt32(b.id) && NulFree(b.message) && SourceOk(b.source) && IsInt32(b.line) && IsInt32(b.column)
    && IsInt32(b.endLine) && IsInt32(b.endColumn)
  }

  predicate StackFrameOk(f: StackFrame) {
    IsInt32(f.id) && NulFree(f.name) && SourceOk(f.source) && IsInt32(f.line) && NulFree(f.instructionPointerReference)
  }

  predicate VariableOk(v: Variable) {
    NulFree(v.name) && NulFree(v.value) && NulFree(v.kind) && IsInt32(v.variablesReference)
    && NulFree(v.hint.kind) && NulFree(v.hint.visibility)
    && forall k :: 0 <= k < |v.hint.attributes| ==> NulFree(v.hint.attributes[k])
  }

  predicate HeadOk(h: Head) {
    IsInt32(h.seqno) && IsInt32(h.requestSeq) && NulFree(h.message)
  }

  /** The values the source's types can hold: C strings and 32-bit integers. */
  predicate MessageOk(m: Message) {
    match m
    case SetBreakpointsRequest(seqno, source, lines) =>
      IsInt32(seqno) && SourceOk(source) && forall k :: 0 <= k < |lines| ==> LineOk(lines[k])
    case SetBreakpointsResponse(head, bs) => HeadOk(head) && forall k :: 0 <= k < |bs| ==> BreakpointOk(bs[k])
    case StackTraceResponse(head, fs) => HeadOk(head) && forall k :: 0 <= k < |fs| ==> StackFrameOk(fs[k])
    case VariablesResponse(head, vs) => HeadOk(head) && forall k :: 0 <= k < |vs| ==> VariableOk(vs[k])
  }

  lemma LongNames()
    ensures NulFree("instructionPointerReference") && NulFree("variablesReference")
  {
  }

  lemma MiddleNames()
    ensures NulFree("presentationHint") && NulFree("sourceReference") && NulFree("setBreakpoints")
    ensures NulFree("breakpoints") && NulFree("attributes") && NulFree("visibility") && NulFree("arguments")
  {
  }

  lemma SourceExact(s: Source)
    requires SourceOk(s)
    ensures Exact(SourceTo(s))
  {
    ExactMembersAll(SourceTo(s).members);
  }

  lemma LineExact(b: SourceBreakpoint)
    requires LineOk(b)
    ensures Exact(SourceBreakpointTo(b))
  {
    ExactMembersAll(SourceBreakpointTo(b).members);
  }

  lemma BreakpointExact(b: Breakpoint)
    requires BreakpointOk(b)
    ensures Exact(BreakpointTo(b))
  {
    SourceExact(b.source);
    ExactMembersAll(BreakpointTo(b).members);
  }

  lemma StackFrameExact(f: StackFrame)
    requires StackFrameOk(f)
    ensures Exact(StackFrameTo(f))
  {
    LongNames();
    SourceExact(f.source);
    ExactMembersAll(StackFrameTo(f).members);
  }

  lemma VariableExact(v: Variable)
    requires VariableOk(v)
    ensures Exact(VariableTo(v))
  {
    HintExact(v.hint);
    LongNames();
    MiddleNames();
    ExactMembersAll(VariableTo(v).members);
  }

  lemma HintExact(h: Hint)
    requires NulFree(h.kind) && NulFree(h.visibility)
    requires forall k :: 0 <= k < |h.attributes| ==> NulFree(h.attributes[k])
    ensures Exact(HintTo(h))
  {
    MiddleNames();
    ExactItemsAll(StringsJson(h.attributes).items);
    ExactMembersAll(HintTo(h).members);
  }

  lemma ResponseExact(h: Head, command: string, name: string, items: seq<Json>)
    requires HeadOk(h) && NulFree(command) && NulFree(name)
    requires forall k :: 0 <= k < |items| ==> Exact(items[k])
    ensures Exact(Object(ResponseHead(h, command) + [Body(name, items)]))
  {
    ExactItemsAll(items);
    ExactMembersAll([Member(name, Array(items))]);
    ExactMembersAll(ResponseHead(h, command) + [Body(name, items)]);
  }

  lemma MessageExact(m: Message)
    requires MessageOk(m)
    ensures Exact(To(m))
  {
    match m {
      case SetBreakpointsRequest(seqno, source, lines) => RequestExact(m);
      case SetBreakpointsResponse(head, bs) =>
        forall k | 0 <= k < |bs| ensures Exact(BreakpointsTo(bs)[k]) {
          BreakpointExact(bs[k]);
        }
        ResponseExact(head, "setBreakpoints", "breakpoints", BreakpointsTo(bs));
      case StackTraceResponse(head, fs) =>
        forall k | 0 <= k < |fs| ensures Exact(StackFramesTo(fs)[k]) {
          StackFrameExact(fs[k]);
        }
        ResponseExact(head, "stackTrace", "stackFrames", StackFramesTo(fs));
      case VariablesResponse(head, vs) =>
        forall k | 0 <= k < |vs| ensures Exact(VariablesTo(vs)[k]) {
          VariableExact(vs[k]);
        }
        ResponseExact(head, "variables", "variables", VariablesTo(vs));
    }
  }

  lemma RequestExact(m: Message)
    requires m.SetBreakpointsRequest? && MessageOk(m)
    ensures Exact(To(m))
  {
    var items := SourceBreakpointsTo(m.lines);
    forall k | 0 <= k < |m.lines| ensures Exact(items[k]) {
      LineExact(m.lines[k]);
    }
    MiddleNames();
    SourceExact(m.source);
    ArgumentsExact(m.source, items);
    ExactMembersAll(To(m).members);
  }

  lemma ArgumentsExact(source: Source, items: seq<Json>)
    requires Exact(SourceTo(source)) && forall k :: 0 <= k < |items| ==> Exact(items[k])
    ensures Exact(Object([Member("source", SourceTo(source)), Member("breakpoints", Array(items))]))
  {
    MiddleNames();
    ExactItemsAll(items);
    ExactMembersAll([Member("source", SourceTo(source)), Member("breakpoints", Array(items))]);
  }

  /** `ProtocolMessage::ToString`. */
  function MessageText(m: Message): string
    requires MessageOk(m)
  {
    MessageExact(m);
    PrintValue(To(m), 0, false)
  }

  /** One message, printed and parsed: it comes back whole exactly when no source
      reference in it is negative. */
  lemma WireIdentity(m: Message)
    requires MessageOk(m)
    ensures Decode(MessageText(m)) == Some(To(m))
    ensures From(Decode(MessageText(m)).value) == Some(m) <==> References(m)
  {
    MessageExact(m);
    ParsePrinted(To(m), false);
    MessageRoundTrip(m);
    SentIsSame(m);
  }

  function Envelopes(messages: seq<Message>): (es: seq<Envelope>)
    requires forall k :: 0 <= k < |messages| ==> MessageOk(messages[k])
  {
    seq(|messages|, k requires 0 <= k < |messages| => Plain(MessageText(messages[k])))
  }

  /** Messages sent one after another and received in any chunks: those that have
      arrived whole are the first `j`, each read back as it was sent. */
  lemma Conversation(messages: seq<Message>, chunks: seq<string>) returns (j: nat, part: string)
    requires forall k :: 0 <= k < |messages| ==> MessageOk(messages[k])
    requires Concat(chunks) <= Wire(Envelopes(messages))
    ensures j <= |messages| && Concat(chunks) == Wire(Envelopes(messages)[..j]) + part
    ensures if j < |messages| then part < Text(Envelopes(messages)[j]) else part == ""
    ensures Feed(chunks).buffer == part && |Feed(chunks).delivered| == j
    ensures forall k :: 0 <= k < j ==> From(Feed(chunks).delivered[k]) == Some(SentMessage(messages[k]))
    ensures forall k :: 0 <= k < j ==>
              (From(Feed(chunks).delivered[k]) == Some(messages[k]) <==> References(messages[k]))
  {
    var es := Envelopes(messages);
    forall k | 0 <= k < |es| ensures Valid(es[k]) {
      WireIdentity(messages[k]);
    }
    j, part := Delivery(es, chunks);
    forall k | 0 <= k < j
      ensures From(Feed(chunks).delivered[k]) == Some(SentMessage(messages[k]))
      ensures From(Feed(chunks).delivered[k]) == Some(messages[k]) <==> References(messages[k])
    {
      WireIdentity(messages[k]);
      MessageRoundTrip(messages[k]);
      assert es[k].payload == MessageText(messages[k]);
    }
  }

  // ---------- streams that are stuck ----------

  lemma OneFrame()
    ensures var text := Wire([Plain("1")]);
            text != "" && StepOf(text) == Take("1", "") && Process(text) == Stream([Number(1.0)], "")
  {
    var text := Wire([Plain("1")]);
    WireFrames([Plain("1")], "");
    assert [Plain("1")][1..] == [] && text + "" == text;
    TakesMessage(Plain("1"), "");
    OneParses();
    ProcessOne(text);
    assert Messages(["1"]) == [Number(1.0)] + Messages(["1"][1..]);
  }

  /** What makes up the rest of the message in front. */
  function Filler(n: nat): (fill: string)
    ensures |fill| == n
  {
    seq(n, _ => ' ')
  }

  lemma Filled(buffer: string) returns (fill: string)
    requires StepOf(buffer).Wait? && FindTerminator(buffer).Some? && !Unusable(buffer)
    ensures fill != "" && StepOf(buffer + fill).Take? && StepOf(buffer + fill).rest == ""
  {
    var where := FindTerminator(buffer).value;
    var length := Atol(HeadersIn(buffer[..where])[CONTENT_LENGTH]);
    fill := Filler(where + 4 + length - |buffer|);
    TerminatorStays(buffer, fill);
    assert (buffer + fill)[..where] == buffer[..where];
  }

  /** Once a complete header section is in front of the buffer and no complete message: no
      input at all makes the stream deliver another message, if and only if the section has
      no length or one that is not positive. */
  lemma StuckIff(s: Stream)
    requires FindTerminator(s.buffer).Some? && !StepOf(s.buffer).Take?
    ensures (forall chunks :: Resume(s, chunks).delivered == s.delivered) <==> Unusable(s.buffer)
  {
    if Unusable(s.buffer) {
      forall chunks ensures Resume(s, chunks).delivered == s.delivered {
        UnusableIsFinal(s, chunks);
      }
    } else {
      var fill := Filled(s.buffer);
      FillTakes(s, fill);
      GoesOn(s, fill);
    }
  }

  lemma FillTakes(s: Stream, fill: string)
    requires fill != "" && StepOf(s.buffer + fill).Take? && StepOf(s.buffer + fill).rest == ""
    ensures Receive(s, fill).buffer == "" && s.delivered <= Receive(s, fill).delivered
  {
    assert Process("") == Stream([], "");
  }

  lemma MessageTakes(s: Stream)
    requires s.buffer == ""
    ensures Receive(s, Wire([Plain("1")])).delivered == s.delivered + [Number(1.0)]
  {
    OneFrame();
    assert "" + Wire([Plain("1")]) == Wire([Plain("1")]);
  }

  lemma GoesOn(s: Stream, fill: string)
    requires Receive(s, fill).buffer == "" && s.delivered <= Receive(s, fill).delivered
    ensures |Resume(s, [fill, Wire([Plain("1")])]).delivered| > |s.delivered|
  {
    var message := Wire([Plain("1")]);
    assert [fill, message][..1] == [fill] && [fill][..0] == [];
    assert Resume(s, [fill]) == Receive(Resume(s, []), fill);
    MessageTakes(Receive(s, fill));
  }

  // ---------- a stream on which the promise fails ----------

  /** After a payload that does not parse: received at once, the message behind it is not
      delivered; received byte by byte, it is. */
  lemma LateMessage()
    ensures var text := Wire([Plain("x"), Plain("1")]);
            && Determined(Frames(text))
            && Feed([text]).delivered == [] && Feed(Bytes(text)).delivered == [Number(1.0)]
  {
    var text := Wire([Plain("x"), Plain("1")]);
    TwoFrames();
    OneParses();
    LetterIsRejected();
    LateBehind(text, "x", "1", Number(1.0));
  }

  lemma TwoFrames()
    ensures Frames(Wire([Plain("x"), Plain("1")])) == ["x", "1"]
  {
    var envelopes := [Plain("x"), Plain("1")];
    assert envelopes[1..] == [Plain("1")] && envelopes[1..][1..] == [];
    WireFrames(envelopes, "");
    assert Wire(envelopes) + "" == Wire(envelopes);
  }

  lemma OneParses()
    ensures Parse("1") == Got(Number(1.0), "")
  {
    ParsePrinted(Number(1.0), false);
    assert Decimal.Digits(1) == "1";
  }

  lemma LetterIsRejected()
    ensures Parse("x") == Rejected
  {
  }
}
