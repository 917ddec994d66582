/** `JsonRPC`: the sender that frames messages and the receiver that undoes it. */
module Transport {
  import opened Decimal
  import opened Framing
  import opened JsonParser
  import opened JsonValue
  import opened TextUtils

  class JsonRpc {
    var buffer: string

    constructor ()
      ensures buffer == ""
    {
      buffer := "";
    }

    method AppendBuffer(chunk: string)
      modifies this
      ensures buffer == old(buffer) + chunk
    {
      buffer := buffer + chunk;
    }

    /** The size of the header section with its empty line, or -1, and its headers. */
    method ReadHeaders() returns (size: int, headers: map<string, string>)
      ensures match FindTerminator(buffer)
              case None => size == -1
              case Some(w) => size == w + 4 && headers == HeadersIn(buffer[..w])
    {
      headers := map[];
      var found := FindTerminator(buffer);
      if found.None? {
        return -1, map[];
      }
      var where := found.value;
      var lines := Tokens(buffer[..where], '\n');
      var i := 0;
      assert lines[0..] == lines;
      while i < |lines|
        invariant 0 <= i <= |lines|
        invariant AddHeaders(lines[i..], headers) == AddHeaders(lines, map[])
      {
        assert lines[i..][0] == lines[i] && lines[i..][1..] == lines[i + 1..];
        var header := Trim(lines[i]);
        var name := BeforeFirst(header, ':');
        var value := AfterFirst(header, ':');
        if Trim(name) !in headers {
          headers := headers[Trim(name) := Trim(value)];
        }
        i := i + 1;
      }
      size := where + 4;
    }

    method DoProcessBuffer() returns (json: Option<Json>)
      requires StepOf(buffer).Take? ==> Parse(StepOf(buffer).payload) != Undefined
      modifies this
      ensures match StepOf(old(buffer))
              case Wait => json == None && buffer == old(buffer)
              case Discard(kept) => json == None && buffer == kept
              case Take(payload, rest) => json == Decode(payload) && buffer == rest
    {
      if buffer == "" {
        return None;
      }
      var headerSize, headers := ReadHeaders();
      if headerSize == -1 {
        return None;
      }
      json := TakeMessage(headerSize, headers);
    }

    /** The part of the buffer after its headers. */
    method TakeMessage(headerSize: nat, headers: map<string, string>) returns (json: Option<Json>)
      requires headerSize <= |buffer|
      requires StepOf(buffer) == StepAfter(buffer, headerSize, headers)
      requires StepOf(buffer).Take? ==> Parse(StepOf(buffer).payload) != Undefined
      modifies this
      ensures match StepOf(old(buffer))
              case Wait => json == None && buffer == old(buffer)
              case Discard(kept) => json == None && buffer == kept
              case Take(payload, rest) => json == Decode(payload) && buffer == rest
    {
      if CONTENT_LENGTH !in headers {
        buffer := buffer[..headerSize];
        return None;
      }
      var msglen := Atol(headers[CONTENT_LENGTH]);
      if msglen <= 0 || headerSize + msglen > |buffer| {
        return None;
      }
      var payload := buffer[headerSize..headerSize + msglen];
      buffer := buffer[headerSize + msglen..];
      json := ParseText(payload);
    }

    /** `delivered` is the sequence of values the callback is called with. */
    method ProcessBuffer() returns (delivered: seq<Json>)
      requires forall p :: p in Frames(buffer) ==> Parse(p) != Undefined
      modifies this
      ensures Stream(delivered, buffer) == Process(old(buffer))
    {
      delivered := [];
      AfterLook(delivered, buffer);
      TakeIsFrame(buffer);
      var json := DoProcessBuffer();
      while json.Some?
        invariant forall p :: p in Frames(buffer) ==> Parse(p) != Undefined
        invariant Continue(delivered, json, buffer) == Process(old(buffer))
        decreases |buffer|, json.Some?
      {
        delivered := delivered + [json.value];
        AfterLook(delivered, buffer);
        TakeIsFrame(buffer);
        json := DoProcessBuffer();
      }
    }
  }

  /** What `ProcessBuffer` will have delivered and left, after a look that returned `json`. */
  function Continue(delivered: seq<Json>, json: Option<Json>, buffer: string): Stream {
    match json
    case None => Stream(delivered, buffer)
    case Some(v) => Stream(delivered + [v] + Process(buffer).delivered, Process(buffer).buffer)
  }

  lemma AfterLook(delivered: seq<Json>, buffer: string)
    ensures var p := Process(buffer);
            Stream(delivered + p.delivered, p.buffer)
            == match StepOf(buffer)
               case Wait => Continue(delivered, None, buffer)
               case Discard(kept) => Continue(delivered, None, kept)
               case Take(payload, rest) => Continue(delivered, Decode(payload), rest)
  {
    assert delivered + [] == delivered;
    if StepOf(buffer).Take? && Decode(StepOf(buffer).payload).Some? {
      Joined(delivered, Decode(StepOf(buffer).payload).value, Process(StepOf(buffer).rest).delivered);
    }
  }

  lemma Joined(delivered: seq<Json>, v: Json, later: seq<Json>)
    ensures delivered + ([v] + later) == delivered + [v] + later
  {
  }

  lemma TakeIsFrame(buffer: string)
    ensures match StepOf(buffer)
            case Take(payload, rest) =>
              payload in Frames(buffer) && (forall p :: p in Frames(rest) ==> p in Frames(buffer))
            case Discard(kept) => Frames(kept) == []
            case Wait => Frames(buffer) == []
  {
    if StepOf(buffer).Discard? {
      StepStays(buffer, "");
      assert StepOf(buffer).kept + "" == StepOf(buffer).kept;
    }
  }

  // ---------- sending ----------

  /** `Send`: what is handed to the connection. */
  method Send(payload: string) returns (network: string)
    ensures network == Text(Plain(payload))
  {
    network := "Content-Length: ";
    network := network + Digits(|payload|);
    network := network + "\r\n\r\n";
    network := network + payload;
    assert Section([LengthLine(payload)]) == LengthLine(payload);
    assert [] + [LengthLine(payload)] + [] == [LengthLine(payload)];
  }

  function LengthLine(payload: string): string { "Content-Length: " + Digits(|payload|) }

  /** A payload and the header lines sent before and after its length. */
  datatype Envelope = Envelope(before: seq<string>, after: seq<string>, payload: string)

  function Plain(payload: string): Envelope { Envelope([], [], payload) }

  /** Header lines, joined by line ends. */
  function Section(lines: seq<string>): string {
    if |lines| == 0 then ""
    else if |lines| == 1 then lines[0]
    else lines[0] + "\r\n" + Section(lines[1..])
  }

  function HeaderLines(e: Envelope): seq<string> {
    e.before + [LengthLine(e.payload)] + e.after
  }

  function Text(e: Envelope): string {
    Section(HeaderLines(e)) + "\r\n\r\n" + e.payload
  }

  predicate IsLine(line: string) {
    line != "" && '\r' !in line && '\n' !in line
  }

  /** Header lines in any number and order, the length not given a second name before it,
      and a payload that is a value. */
  predicate Framed(e: Envelope) {
    && (forall k :: 0 <= k < |e.before| ==> IsLine(e.before[k]) && HeaderName(e.before[k]) != CONTENT_LENGTH)
    && (forall k :: 0 <= k < |e.after| ==> IsLine(e.after[k]))
    && |e.payload| > 0
  }

  /** A message whose payload parses. */
  predicate Valid(e: Envelope) {
    Framed(e) && Decode(e.payload).Some?
  }

  function Wire(envelopes: seq<Envelope>): string {
    if |envelopes| == 0 then "" else Text(envelopes[0]) + Wire(envelopes[1..])
  }

  function Payloads(envelopes: seq<Envelope>): seq<string> {
    if |envelopes| == 0 then [] else [envelopes[0].payload] + Payloads(envelopes[1..])
  }

  // ---------- the receiver reads what the sender wrote ----------

  lemma SpaceFree(s: string)
    requires |s| > 0 && !IsSpace(s[0]) && !IsSpace(s[|s| - 1])
    ensures Trim(s) == s && Trim(s + "\r") == s && Trim(" " + s) == s
  {
    assert (s + "\r")[..|s|] == s;
    assert (" " + s)[|s|] == s[|s| - 1] && (" " + s)[1..] == s;
    assert TrimRight(" " + s) == " " + s;
  }

  lemma TrimEnd(line: string)
    ensures Trim(line + "\r") == Trim(line)
  {
    assert (line + "\r")[..|line|] == line;
  }

  lemma LineParts(name: string, value: string)
    requires |name| > 0 && !IsSpace(name[0]) && !IsSpace(name[|name| - 1]) && ':' !in name
    requires |value| > 0 && !IsSpace(value[0]) && !IsSpace(value[|value| - 1])
    ensures HeaderName(name + ": " + value) == name && HeaderValue(name + ": " + value) == value
  {
    var line := name + ": " + value;
    SpaceFree(line);
    assert line == name + (": " + value);
    IndexOfIs(name, ':', ": " + value);
    assert BeforeFirst(line, ':') == name;
    assert AfterFirst(line, ':') == " " + value;
    SpaceFree(name);
    SpaceFree(value);
  }

  /** The name and value of a length line, whether or not its line end is still there. */
  lemma LengthLineReads(payload: string)
    ensures var line := LengthLine(payload);
            HeaderName(line) == CONTENT_LENGTH && Atol(HeaderValue(line)) == |payload|
  {
    var digits := Digits(|payload|);
    assert IsDigit(digits[0]) && IsDigit(digits[|digits| - 1]);
    LineParts(CONTENT_LENGTH, digits);
    assert LengthLine(payload) == CONTENT_LENGTH + ": " + digits;
    AtolDigits(|payload|);
  }

  lemma AtolDigits(n: nat)
    ensures Atol(Digits(n)) == n
  {
    var s := Digits(n);
    RunIs(s, "");
    AccumulateDigits(n);
    assert s + "" == s && s[..|s|] == s && IsDigit(s[0]);
  }

  predicate AllLines(lines: seq<string>) {
    forall k :: 0 <= k < |lines| ==> IsLine(lines[k])
  }

  /** Nothing inside a header section looks like its end. */
  lemma {:induction false} SectionEnds(lines: seq<string>, rest: string)
    requires AllLines(lines) && |lines| > 0
    ensures FindTerminator(Section(lines) + "\r\n\r\n" + rest) == Some(|Section(lines)|)
  {
    var t := Section(lines) + "\r\n\r\n" + rest;
    var line := lines[0];
    if |lines| == 1 {
      var u := "\r\n\r\n" + rest;
      assert t == line + u;
      PassLine(line, u);
      assert FindTerminator(u) == Some(0);
    } else {
      var more := Section(lines[1..]) + "\r\n\r\n" + rest;
      SectionEnds(lines[1..], rest);
      assert t == line + ("\r\n" + more);
      PassLine(line, "\r\n" + more);
      assert more[0] == lines[1][0] by {
        assert Section(lines[1..])[0] == lines[1][0];
      }
      assert more[0] != '\r';
      PassLineEnd(more);
    }
  }

  lemma {:induction false} PassLine(line: string, rest: string)
    requires '\r' !in line && FindTerminator(rest).Some?
    ensures FindTerminator(line + rest) == Some(|line| + FindTerminator(rest).value)
  {
    if |line| == 0 {
      assert line + rest == rest;
    } else {
      var t := line + rest;
      assert t[0] == line[0] && t[0] != '\r' && t[1..] == line[1..] + rest;
      PassLine(line[1..], rest);
    }
  }

  lemma PassLineEnd(more: string)
    requires FindTerminator(more).Some? && more[0] != '\r'
    ensures FindTerminator("\r\n" + more) == Some(2 + FindTerminator(more).value)
  {
    var t := "\r\n" + more;
    assert t[2] == more[0];
    assert t[1..] == "\n" + more && ("\n" + more)[1..] == more;
    assert ("\n" + more)[0] == '\n';
    assert FindTerminator("\n" + more) == Some(1 + FindTerminator(more).value);
  }

  /** The tokens of a section: its lines, all but the last with the `\r` still there. */
  function Read(lines: seq<string>): seq<string> {
    if |lines| == 0 then []
    else if |lines| == 1 then lines
    else [lines[0] + "\r"] + Read(lines[1..])
  }

  lemma {:induction false} SectionTokens(lines: seq<string>)
    requires AllLines(lines)
    ensures Tokens(Section(lines), '\n') == Read(lines)
  {
    if |lines| == 1 {
      var line := lines[0];
      IndexOfIs(line, '\n', "");
      assert line + "" == line && line[..|line|] == line;
      assert Tokens("", '\n') == [] && [line] + [] == lines;
    } else if |lines| > 1 {
      var line, rest := lines[0] + "\r", "\n" + Section(lines[1..]);
      var t := Section(lines);
      assert t == line + rest;
      IndexOfIs(line, '\n', rest);
      assert t[..|line|] == line && t[|line| + 1..] == Section(lines[1..]);
      SectionTokens(lines[1..]);
    }
  }

  lemma NameOfRead(line: string)
    ensures HeaderName(line + "\r") == HeaderName(line) && HeaderValue(line + "\r") == HeaderValue(line)
  {
    TrimEnd(line);
  }

  /** Once a name has a value, later headers do not change it. */
  lemma {:induction false} FirstValueStays(lines: seq<string>, headers: map<string, string>, name: string)
    requires name in headers
    ensures name in AddHeaders(lines, headers) && AddHeaders(lines, headers)[name] == headers[name]
  {
    if |lines| > 0 {
      var n := HeaderName(lines[0]);
      FirstValueStays(lines[1..], if n in headers then headers else headers[n := HeaderValue(lines[0])], name);
    }
  }

  lemma {:induction false} LengthIsFound(before: seq<string>, line: string, after: seq<string>,
                                         headers: map<string, string>)
    requires forall k :: 0 <= k < |before| ==> HeaderName(before[k]) != CONTENT_LENGTH
    requires HeaderName(line) == CONTENT_LENGTH && CONTENT_LENGTH !in headers
    ensures var all := AddHeaders(Read(before + [line] + after), headers);
            CONTENT_LENGTH in all && all[CONTENT_LENGTH] == HeaderValue(line)
  {
    var lines := before + [line] + after;
    var first := Read(lines)[0];
    NameOfRead(lines[0]);
    assert first == lines[0] || first == lines[0] + "\r";
    var name := HeaderName(first);
    if |before| == 0 {
      assert lines[0] == line;
      FirstValueStays(Read(lines)[1..], headers[name := HeaderValue(first)], CONTENT_LENGTH);
    } else {
      assert lines[0] == before[0] && lines[1..] == before[1..] + [line] + after;
      LengthIsFound(before[1..], line, after, if name in headers then headers else headers[name := HeaderValue(first)]);
      assert Read(lines)[1..] == Read(lines[1..]);
    }
  }

  lemma LinesAreLines(e: Envelope)
    requires Framed(e)
    ensures AllLines(HeaderLines(e)) && |HeaderLines(e)| > 0
  {
    assert IsLine(LengthLine(e.payload)) by {
      assert AllDigits(Digits(|e.payload|));
    }
  }

  lemma HeaderFacts(e: Envelope)
    requires Framed(e)
    ensures AllLines(HeaderLines(e)) && |HeaderLines(e)| > 0 && |e.payload| > 0
    ensures var headers := HeadersIn(Section(HeaderLines(e)));
            CONTENT_LENGTH in headers && Atol(headers[CONTENT_LENGTH]) == |e.payload|
  {
    LengthLineReads(e.payload);
    LinesAreLines(e);
    SectionTokens(HeaderLines(e));
    LengthIsFound(e.before, LengthLine(e.payload), e.after, map[]);
  }

  /** A whole message is taken, whatever follows it. */
  lemma TakesMessage(e: Envelope, more: string)
    requires Framed(e)
    ensures StepOf(Text(e) + more) == Take(e.payload, more)
  {
    HeaderFacts(e);
    var section := Section(HeaderLines(e));
    var buffer := Text(e) + more;
    assert buffer == section + "\r\n\r\n" + (e.payload + more);
    SectionEnds(HeaderLines(e), e.payload + more);
    var size := |section| + 4;
    assert buffer[..|section|] == section;
    assert buffer[size..size + |e.payload|] == e.payload && buffer[size + |e.payload|..] == more;
  }

  /** A message that is not whole is left alone. */
  lemma WaitsForMessage(e: Envelope, part: string)
    requires Framed(e) && part < Text(e)
    ensures StepOf(part) == Wait
  {
    HeaderFacts(e);
    var section := Section(HeaderLines(e));
    SectionEnds(HeaderLines(e), e.payload);
    assert Text(e) == part + Text(e)[|part|..];
    if FindTerminator(part).Some? {
      TerminatorStays(part, Text(e)[|part|..]);
      assert part[..|section|] == section;
    }
  }

  lemma FirstFrame(e: Envelope, more: string)
    requires Framed(e)
    ensures Frames(Text(e) + more) == [e.payload] + Frames(more) && Rest(Text(e) + more) == Rest(more)
  {
    TakesMessage(e, more);
  }

  lemma {:induction false} WireSplits(envelopes: seq<Envelope>, part: string)
    requires |envelopes| > 0
    ensures Wire(envelopes) + part == Text(envelopes[0]) + (Wire(envelopes[1..]) + part)
  {
  }

  /** A stream of messages and the beginning of another: the messages, in order, and
      the beginning. */
  lemma {:induction false} WireFrames(envelopes: seq<Envelope>, part: string)
    requires forall k :: 0 <= k < |envelopes| ==> Framed(envelopes[k])
    requires StepOf(part) == Wait
    ensures Frames(Wire(envelopes) + part) == Payloads(envelopes) && Rest(Wire(envelopes) + part) == part
  {
    if |envelopes| == 0 {
      assert "" + part == part;
    } else {
      WireFrames(envelopes[1..], part);
      FirstFrame(envelopes[0], Wire(envelopes[1..]) + part);
      WireSplits(envelopes, part);
    }
  }

  /** Every front part of a stream is some messages and the beginning of the next. */
  lemma {:induction false} FrontOfWire(envelopes: seq<Envelope>, front: string) returns (j: nat, part: string)
    requires forall k :: 0 <= k < |envelopes| ==> Framed(envelopes[k])
    requires front <= Wire(envelopes)
    ensures j <= |envelopes| && front == Wire(envelopes[..j]) + part
    ensures if j < |envelopes| then part < Text(envelopes[j]) else part == ""
  {
    if |envelopes| == 0 {
      j, part := 0, "";
    } else if |front| < |Text(envelopes[0])| {
      j, part := 0, front;
      assert front == Wire(envelopes)[..|front|] == Text(envelopes[0])[..|front|];
      assert "" + part == part && envelopes[..0] == [];
    } else {
      var rest := front[|Text(envelopes[0])|..];
      PastFirst(Text(envelopes[0]), Wire(envelopes[1..]), front);
      var k;
      k, part := FrontOfWire(envelopes[1..], rest);
      j := k + 1;
      WireOfMore(envelopes, k, part);
    }
  }

  lemma PastFirst(first: string, more: string, front: string)
    requires front <= first + more && |front| >= |first|
    ensures front == first + front[|first|..] && front[|first|..] <= more
  {
    assert front == (first + more)[..|front|];
  }

  lemma WireOfMore(envelopes: seq<Envelope>, k: nat, part: string)
    requires k < |envelopes|
    ensures Wire(envelopes[..k + 1]) + part == Text(envelopes[0]) + (Wire(envelopes[1..][..k]) + part)
  {
    assert envelopes[..k + 1][0] == envelopes[0] && envelopes[..k + 1][1..] == envelopes[1..][..k];
  }

  lemma {:induction false} PayloadsParse(envelopes: seq<Envelope>)
    requires forall k :: 0 <= k < |envelopes| ==> Valid(envelopes[k])
    ensures AllParse(Payloads(envelopes)) && |Payloads(envelopes)| == |envelopes|
    ensures |Messages(Payloads(envelopes))| == |envelopes|
    ensures forall k :: 0 <= k < |envelopes| ==>
              Decode(envelopes[k].payload) == Some(Messages(Payloads(envelopes))[k])
  {
    if |envelopes| > 0 {
      PayloadsParse(envelopes[1..]);
      assert Payloads(envelopes)[1..] == Payloads(envelopes[1..]);
      var v, vs := Decode(envelopes[0].payload).value, Messages(Payloads(envelopes[1..]));
      assert Messages(Payloads(envelopes)) == [v] + vs;
      forall k | 0 <= k < |envelopes| ensures Decode(envelopes[k].payload) == Some(([v] + vs)[k]) {
        if k > 0 {
          assert envelopes[k] == envelopes[1..][k - 1];
        }
      }
    }
  }

  /** Messages sent as a stream and received in chunks cut anywhere: at every moment the
      callbacks made are exactly the values of the messages that have arrived whole, in
      order, and the buffer is exactly the part of the next one. */
  lemma Delivery(envelopes: seq<Envelope>, chunks: seq<string>) returns (j: nat, part: string)
    requires forall k :: 0 <= k < |envelopes| ==> Valid(envelopes[k])
    requires Concat(chunks) <= Wire(envelopes)
    ensures j <= |envelopes| && Concat(chunks) == Wire(envelopes[..j]) + part
    ensures if j < |envelopes| then part < Text(envelopes[j]) else part == ""
    ensures Feed(chunks) == Stream(Messages(Payloads(envelopes[..j])), part)
    ensures |Feed(chunks).delivered| == j
    ensures forall k :: 0 <= k < j ==> Decode(envelopes[k].payload) == Some(Feed(chunks).delivered[k])
  {
    j, part := FrontOfWire(envelopes, Concat(chunks));
    if j < |envelopes| {
      WaitsForMessage(envelopes[j], part);
    }
    WireFrames(envelopes[..j], part);
    PayloadsParse(envelopes[..j]);
    DeliversAll(chunks);
  }

  // ---------- inputs on which the promise fails ----------

  /** Headers without a length: the buffer is kept for good. */
  lemma HeadersWithoutLength()
    ensures StepOf("A: b\r\n\r\n") == Discard("A: b\r\n\r\n")
  {
    OtherHeader("A: b", "A: b\r\n\r\n");
  }

  lemma OtherHeader(line: string, buffer: string)
    requires IsLine(line) && HeaderName(line) != CONTENT_LENGTH && buffer == line + "\r\n\r\n"
    ensures StepOf(buffer) == Discard(buffer)
  {
    assert Section([line]) == line && buffer == line + "\r\n\r\n" + "";
    SectionEnds([line], "");
    SectionTokens([line]);
    assert buffer[..|line|] == line && buffer[..|line| + 4] == buffer;
    assert [line][1..] == [];
    assert AddHeaders([line], map[]) == map[HeaderName(line) := HeaderValue(line)];
  }
}
