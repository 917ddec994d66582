/** The names under which the messages' fields travel, and what is read when they are missing. */
module DapWire {
  import opened DapMessages
  import opened JsonAccess
  import opened JsonValue

  /** The object has this property. */
  predicate Has(json: Json, name: string, value: Json) {
    Get(Some(json), name) == Some(value)
  }

  predicate HasCount(json: Json, count: nat) {
    json.Object? && |json.members| == count
  }

  lemma SourceNames(s: Source)
    ensures var j := SourceTo(s);
            && Has(j, "name", Str(s.name))
            && (if s.path != "" then Has(j, "path", Str(s.path)) else Get(Some(j), "path") == None)
            && (if s.sourceReference > 0 then Has(j, "sourceReference", Number(s.sourceReference as real))
                else Get(Some(j), "sourceReference") == None)
            && HasCount(j, 1 + (if s.path != "" then 1 else 0) + (if s.sourceReference > 0 then 1 else 0))
  {
    var ms := SourceTo(s).members;
    LookupAt(ms, 0);
    if s.path != "" {
      assert ms[1] == Member("path", Str(s.path));
      LookupAt(ms, 1);
    } else {
      LookupMissing(ms, "path");
    }
    if s.sourceReference > 0 {
      assert ms[|ms| - 1] == Member("sourceReference", Int(s.sourceReference));
      LookupAt(ms, |ms| - 1);
    } else {
      LookupMissing(ms, "sourceReference");
    }
  }

  lemma SourceBreakpointNames(b: SourceBreakpoint)
    ensures var j := SourceBreakpointTo(b);
            Has(j, "line", Number(b.line as real)) && Has(j, "condition", Str(b.condition)) && HasCount(j, 2)
  {
    LookupAt(SourceBreakpointTo(b).members, 0);
    LookupAt(SourceBreakpointTo(b).members, 1);
  }

  lemma BreakpointNames(b: Breakpoint)
    ensures var j := BreakpointTo(b);
            && Has(j, "id", Number(b.id as real)) && Has(j, "verified", if b.verified then True else False)
            && Has(j, "message", Str(b.message)) && Has(j, "source", SourceTo(b.source))
            && Has(j, "line", Number(b.line as real)) && Has(j, "column", Number(b.column as real))
            && Has(j, "endLine", Number(b.endLine as real)) && Has(j, "endColumn", Number(b.endColumn as real))
            && HasCount(j, 8)
  {
    BreakpointPositions(b);
    BreakpointFlags(b);
  }

  lemma LocationNames(b: BreakpointLocation)
    ensures var j := LocationTo(b);
            && Has(j, "line", Number(b.line as real)) && Has(j, "column", Number(b.column as real))
            && Has(j, "endLine", Number(b.endLine as real)) && Has(j, "endColumn", Number(b.endColumn as real))
            && HasCount(j, 4)
  {
    var ms := LocationTo(b).members;
    LookupAt(ms, 0);
    LookupAt(ms, 1);
    LookupAt(ms, 2);
    LookupAt(ms, 3);
  }

  lemma StackFrameNames(f: StackFrame)
    ensures var j := StackFrameTo(f);
            && Has(j, "id", Number(f.id as real)) && Has(j, "name", Str(f.name)) && Has(j, "source", SourceTo(f.source))
            && Has(j, "line", Number(f.line as real))
            && Has(j, "instructionPointerReference", Str(f.instructionPointerReference)) && HasCount(j, 5)
  {
    var ms := StackFrameTo(f).members;
    LookupAt(ms, 0);
    LookupAt(ms, 1);
    LookupAt(ms, 2);
    LookupAt(ms, 3);
    LookupAt(ms, 4);
  }

  lemma HintNames(h: Hint)
    ensures var j := HintTo(h);
            && Has(j, "kind", Str(h.kind)) && Has(j, "visibility", Str(h.visibility)) && HasCount(j, 3)
            && Get(Some(j), "attributes").Some? && Get(Some(j), "attributes").value.Array?
            && var items := Get(Some(j), "attributes").value.items;
               |items| == |h.attributes| && forall i :: 0 <= i < |items| ==> items[i] == Str(h.attributes[i])
  {
    var ms := HintTo(h).members;
    LookupAt(ms, 0);
    LookupAt(ms, 1);
    LookupAt(ms, 2);
  }

  lemma VariableNames(v: Variable)
    ensures var j := VariableTo(v);
            && Has(j, "name", Str(v.name)) && Has(j, "value", Str(v.value)) && Has(j, "type", Str(v.kind))
            && Has(j, "variablesReference", Number(v.variablesReference as real))
            && Has(j, "presentationHint", HintTo(v.hint)) && HasCount(j, 5)
  {
    var ms := VariableTo(v).members;
    LookupAt(ms, 0);
    LookupAt(ms, 1);
    LookupAt(ms, 2);
    LookupAt(ms, 3);
    LookupAt(ms, 4);
  }

  // ---------- messages ----------

  /** A response, its command, and the array in its body. */
  predicate IsResponse(json: Json, h: Head, command: string, name: string, items: seq<Json>) {
    && Has(json, "seq", Number(h.seqno as real)) && Has(json, "type", Str("response"))
    && Has(json, "request_seq", Number(h.requestSeq as real)) && Has(json, "success", if h.success then True else False)
    && Has(json, "message", Str(h.message)) && Has(json, "command", Str(command))
    && Has(json, "body", Object([Member(name, Array(items))])) && HasCount(json, 7)
  }

  lemma ResponseNames(h: Head, command: string, name: string, items: seq<Json>)
    ensures IsResponse(Object(ResponseHead(h, command) + [Body(name, items)]), h, command, name, items)
  {
    HeadStart(h, command, Body(name, items));
    HeadEnd(h, command, Body(name, items));
  }

  predicate AllAre<T>(items: seq<Json>, values: seq<T>, to: T -> Json) {
    |items| == |values| && forall i :: 0 <= i < |items| ==> items[i] == to(values[i])
  }

  /** How each message goes out. */
  lemma MessageNames(m: Message)
    ensures match m
            case SetBreakpointsRequest(seqno, source, lines) =>
              && Has(To(m), "seq", Number(seqno as real)) && Has(To(m), "type", Str("request"))
              && Has(To(m), "command", Str("setBreakpoints"))
              && Has(To(m), "arguments", Object([Member("source", SourceTo(source)),
                                                 Member("breakpoints", Array(SourceBreakpointsTo(lines)))]))
              && HasCount(To(m), 4) && AllAre(SourceBreakpointsTo(lines), lines, SourceBreakpointTo)
            case SetBreakpointsResponse(head, bs) =>
              && IsResponse(To(m), head, "setBreakpoints", "breakpoints", BreakpointsTo(bs))
              && AllAre(BreakpointsTo(bs), bs, BreakpointTo)
            case StackTraceResponse(head, fs) =>
              && IsResponse(To(m), head, "stackTrace", "stackFrames", StackFramesTo(fs))
              && AllAre(StackFramesTo(fs), fs, StackFrameTo)
            case VariablesResponse(head, vs) =>
              && IsResponse(To(m), head, "variables", "variables", VariablesTo(vs))
              && AllAre(VariablesTo(vs), vs, VariableTo)
  {
    match m {
      case SetBreakpointsRequest(seqno, source, lines) => RequestNames(m);
      case SetBreakpointsResponse(head, bs) =>
        ResponseNames(head, "setBreakpoints", "breakpoints", BreakpointsTo(bs));
      case StackTraceResponse(head, fs) => ResponseNames(head, "stackTrace", "stackFrames", StackFramesTo(fs));
      case VariablesResponse(head, vs) => ResponseNames(head, "variables", "variables", VariablesTo(vs));
    }
  }

  lemma RequestNames(m: Message)
    requires m.SetBreakpointsRequest?
    ensures Has(To(m), "seq", Number(m.seqno as real)) && Has(To(m), "type", Str("request"))
    ensures Has(To(m), "command", Str("setBreakpoints")) && HasCount(To(m), 4)
    ensures Has(To(m), "arguments", Object([Member("source", SourceTo(m.source)),
                                            Member("breakpoints", Array(SourceBreakpointsTo(m.lines)))]))
  {
    var ms := To(m).members;
    LookupAt(ms, 0);
    LookupAt(ms, 1);
    LookupAt(ms, 2);
    LookupAt(ms, 3);
  }

  // ---------- what is not there ----------

  lemma NothingThere(name: string)
    ensures Get(Some(Object([])), name) == None && Get(None, name) == None
  {
  }

  /** Numbers that are missing are -1, but a source's reference 0; texts are empty, flags
      false, lists empty. */
  lemma MissingFields(j: Option<Json>)
    requires j == None || j == Some(Object([]))
    ensures SourceFrom(j) == Source("", "", 0) && SourceBreakpointFrom(j) == SourceBreakpoint(-1, "")
    ensures BreakpointFrom(j) == Breakpoint(-1, false, "", Source("", "", 0), -1, -1, -1, -1)
    ensures LocationFrom(j) == BreakpointLocation(-1, -1, -1, -1)
    ensures StackFrameFrom(j) == StackFrame(-1, "", Source("", "", 0), -1, "")
    ensures HintFrom(j) == Hint("", [], "") && VariableFrom(j) == Variable("", "", "", -1, Hint("", [], ""))
    ensures HeadFrom(j) == Head(-1, -1, false, "")
  {
    if j.Some? {
      assert forall name :: Get(j, name) == None;
    }
  }

  /** Messages of four kinds are read, by their type and command; others are not. */
  lemma KindsRead(json: Json)
    ensures var kind, command := GetString(Get(Some(json), "type"), ""), GetString(Get(Some(json), "command"), "");
            && (From(json) != None <==>
                  || (kind == "request" && command == "setBreakpoints")
                  || (kind == "response" && command in {"setBreakpoints", "stackTrace", "variables"}))
            && (From(json) != None ==>
                  && (From(json).value.SetBreakpointsRequest? <==> kind == "request")
                  && (From(json).value.SetBreakpointsResponse? <==> kind == "response" && command == "setBreakpoints")
                  && (From(json).value.StackTraceResponse? <==> command == "stackTrace")
                  && (From(json).value.VariablesResponse? <==> command == "variables"))
  {
  }

  // ---------- reading ----------

  /** The first property of a name is read, whatever comes behind it. */
  lemma {:induction false} FirstIsRead(members: seq<Member>, name: string, k: nat)
    requires k <= |members| && forall i :: 0 <= i < k ==> members[i].key != name
    requires k < |members| ==> members[k].key == name
    ensures Get(Some(Object(members)), name) == if k < |members| then Some(members[k].value) else None
  {
    if k > 0 {
      FirstIsRead(members[1..], name, k - 1);
    }
  }

  /** Numbers are cut towards zero. */
  lemma IntegersAreCut(r: real, default: int)
    ensures var n := GetInteger(Some(Number(r)), default);
            if r >= 0.0 then n as real <= r < n as real + 1.0 else n as real - 1.0 < r <= n as real
  {
  }

  /** A value of another type is read as the default, and only arrays and objects have children. */
  lemma OtherTypes(json: Json, n: int, s: string, b: bool, i: nat, name: string)
    ensures !json.Number? ==> GetInteger(Some(json), n) == n
    ensures !json.Str? ==> GetString(Some(json), s) == s
    ensures !json.True? ==> GetBool(Some(json), b) == b
    ensures !json.Object? ==> Get(Some(json), name) == None
    ensures GetInteger(None, n) == n && GetString(None, s) == s && GetBool(None, b) == b
    ensures !json.Array? && !json.Object? ==> Count(Some(json)) == 0 && Child(Some(json), i) == None
    ensures json.Array? ==>
              && Count(Some(json)) == |json.items|
              && Child(Some(json), i) == if i < |json.items| then Some(json.items[i]) else None
    ensures json.Object? ==>
              && Count(Some(json)) == |json.members|
              && Child(Some(json), i) == if i < |json.members| then Some(json.members[i].value) else None
  {
  }

  /** Lists are read from arrays only, one text for each item. */
  lemma ListsRead(json: Json)
    ensures json.Array? ==> |Strings(Some(json))| == |json.items|
    ensures json.Array? ==>
              forall i :: 0 <= i < |json.items| ==>
                Strings(Some(json))[i] == if json.items[i].Str? then json.items[i].text else ""
    ensures !json.Array? ==> Strings(Some(json)) == []
    ensures Strings(None) == []
  {
  }

  /** Adding to an object or an array makes one last child; the others, and what is read under
      other names, stay. Nothing else takes children. */
  lemma AddsLast(json: Json, name: string, item: Json, other: string)
    ensures var more := Add(json, name, item);
            && (json.Object? || json.Array? ==>
                  && Count(Some(more)) == Count(Some(json)) + 1
                  && Child(Some(more), Count(Some(json))) == Some(item)
                  && forall i :: 0 <= i < Count(Some(json)) ==> Child(Some(more), i) == Child(Some(json), i))
            && (json.Object? ==>
                  && (Get(Some(json), other).Some? ==> Get(Some(more), other) == Get(Some(json), other))
                  && (Get(Some(json), other) == None ==>
                        Get(Some(more), other) == if other == name then Some(item) else None))
            && (!json.Object? && !json.Array? ==> more == json)
  {
    if json.Object? {
      LookupBehind(json.members, name, item, other);
    }
  }

  lemma {:induction false} LookupBehind(members: seq<Member>, name: string, item: Json, other: string)
    ensures Lookup(members + [Member(name, item)], other)
         == if Lookup(members, other).Some? then Lookup(members, other)
            else if other == name then Some(item) else None
  {
    if |members| == 0 {
      assert members + [Member(name, item)] == [Member(name, item)];
      assert Lookup([Member(name, item)][1..], other) == None;
    } else {
      LookupBehind(members[1..], name, item, other);
      assert (members + [Member(name, item)])[1..] == members[1..] + [Member(name, item)];
    }
  }
}
