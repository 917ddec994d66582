/** Message framing: `Content-Length` headers over a buffer that grows in arbitrary chunks. */
module Framing {
  import opened Decimal
  import opened JsonParser
  import opened JsonValue
  import opened TextUtils

  const CONTENT_LENGTH := "Content-Length"

  // ---------- one message ----------

  /** Where the first empty line is, if there is one. */
  function FindTerminator(s: string): (w: Option<nat>)
    ensures w.Some? ==> w.value + 4 <= |s|
  {
    if |s| < 4 then None
    else if s[0] == '\r' && s[1] == '\n' && s[2] == '\r' && s[3] == '\n' then Some(0)
    else
      match FindTerminator(s[1..])
      case None => None
      case Some(w) => Some(1 + w)
  }

  function HeaderName(line: string): string { Trim(BeforeFirst(Trim(line), ':')) }

  function HeaderValue(line: string): string { Trim(AfterFirst(Trim(line), ':')) }

  /** `insert` keeps the first value given for a name. */
  function AddHeaders(lines: seq<string>, headers: map<string, string>): map<string, string> {
    if |lines| == 0 then headers
    else
      var name := HeaderName(lines[0]);
      AddHeaders(lines[1..], if name in headers then headers else headers[name := HeaderValue(lines[0])])
  }

  /** `atol`: optional whitespace and sign, then digits. */
  function Atol(s: string): int {
    var t := TrimLeft(s);
    var u := if At(t, 0) == '-' || At(t, 0) == '+' then t[1..] else t;
    var n: int := Accumulate(u[..Run(u)], 0);
    if At(t, 0) == '-' then -n else n
  }

  /** What one look at the buffer does. */
  datatype Step =
    | Wait                                   // nothing complete, or an unusable length: buffer kept
    | Discard(kept: string)                  // headers without a length: all that follows them is erased
    | Take(payload: string, rest: string)

  function StepOf(buffer: string): (s: Step)
    ensures s.Take? ==> |s.rest| < |buffer|
  {
    match FindTerminator(buffer)
    case None => Wait
    case Some(where) => StepAfter(buffer, where + 4, HeadersIn(buffer[..where]))
  }

  function HeadersIn(section: string): map<string, string> {
    AddHeaders(Tokens(section, '\n'), map[])
  }

  /** The step when the header section ends at `size`. */
  function StepAfter(buffer: string, size: nat, headers: map<string, string>): (s: Step)
    requires size <= |buffer|
    ensures s.Take? ==> |s.rest| < |buffer|
  {
    if CONTENT_LENGTH !in headers then Discard(buffer[..size])
    else
      var length := Atol(headers[CONTENT_LENGTH]);
      if length <= 0 || size + length > |buffer| then Wait
      else Take(buffer[size..size + length], buffer[size + length..])
  }

  /** `Json::Parse`: a value, or the null `Json` that `IsOK` rejects. */
  function Decode(payload: string): Option<Json> {
    match Parse(payload)
    case Got(v, _) => Some(v)
    case _ => None
  }

  /** The source's parser has a defined result on every payload. */
  predicate Determined(payloads: seq<string>) {
    forall p :: p in payloads ==> Parse(p) != Undefined
  }

  // ---------- the whole buffer ----------

  /** The payloads of the complete messages at the front of the buffer. */
  function Frames(buffer: string): seq<string>
    decreases |buffer|
  {
    match StepOf(buffer)
    case Take(payload, rest) => [payload] + Frames(rest)
    case _ => []
  }

  /** What is left of the buffer once they are taken. */
  function Rest(buffer: string): string
    decreases |buffer|
  {
    match StepOf(buffer)
    case Take(_, rest) => Rest(rest)
    case Discard(kept) => kept
    case Wait => buffer
  }

  function Messages(payloads: seq<string>): seq<Json> {
    if |payloads| == 0 then []
    else
      match Decode(payloads[0])
      case Some(v) => [v] + Messages(payloads[1..])
      case None => Messages(payloads[1..])
  }

  /** The payloads before the first one that does not parse. */
  function GoodPrefix(payloads: seq<string>): seq<string> {
    if |payloads| == 0 || Decode(payloads[0]).None? then []
    else [payloads[0]] + GoodPrefix(payloads[1..])
  }

  /** Messages handed to the callback, and the buffer. */
  datatype Stream = Stream(delivered: seq<Json>, buffer: string)

  /** `ProcessBuffer`: deliver until a look at the buffer yields no value. */
  function Process(buffer: string): Stream
    decreases |buffer|
  {
    match StepOf(buffer)
    case Wait => Stream([], buffer)
    case Discard(kept) => Stream([], kept)
    case Take(payload, rest) =>
      match Decode(payload)
      case None => Stream([], rest)
      case Some(v) =>
        var later := Process(rest);
        Stream([v] + later.delivered, later.buffer)
  }

  /** `OnDataRead`. */
  function Receive(s: Stream, chunk: string): Stream {
    if chunk == "" then s
    else
      var p := Process(s.buffer + chunk);
      Stream(s.delivered + p.delivered, p.buffer)
  }

  function Resume(s: Stream, chunks: seq<string>): Stream {
    if |chunks| == 0 then s else Receive(Resume(s, chunks[..|chunks| - 1]), chunks[|chunks| - 1])
  }

  function Feed(chunks: seq<string>): Stream {
    Resume(Stream([], ""), chunks)
  }

  function Concat(chunks: seq<string>): string {
    if |chunks| == 0 then "" else Concat(chunks[..|chunks| - 1]) + chunks[|chunks| - 1]
  }

  // ---------- later input does not change what is complete ----------

  lemma {:induction false} TerminatorStays(a: string, b: string)
    requires FindTerminator(a).Some?
    ensures FindTerminator(a + b) == FindTerminator(a)
  {
    if !(a[0] == '\r' && a[1] == '\n' && a[2] == '\r' && a[3] == '\n') {
      TerminatorStays(a[1..], b);
      assert (a + b)[1..] == a[1..] + b;
    }
  }

  lemma StepStays(a: string, b: string)
    ensures match StepOf(a)
            case Take(payload, rest) => StepOf(a + b) == Take(payload, rest + b)
            case Discard(kept) => StepOf(a + b) == Discard(kept) && StepOf(kept + b) == Discard(kept)
            case Wait => true
  {
    if FindTerminator(a).Some? {
      TerminatorStays(a, b);
      var where := FindTerminator(a).value;
      assert (a + b)[..where] == a[..where];
      match StepOf(a) {
        case Take(payload, rest) =>
          var end := |a| - |rest|;
          assert (a + b)[where + 4..end] == payload && (a + b)[end..] == rest + b;
        case Discard(kept) =>
          assert (a + b)[..where + 4] == kept;
          TerminatorHere(a, where + 4);
          TerminatorStays(kept, b);
          assert (kept + b)[..where] == a[..where] && (kept + b)[..where + 4] == kept;
        case Wait =>
      }
    }
  }

  /** A front part that reaches past the terminator already has it. */
  lemma {:induction false} TerminatorHere(a: string, k: nat)
    requires FindTerminator(a).Some? && FindTerminator(a).value + 4 <= k <= |a|
    ensures FindTerminator(a[..k]) == FindTerminator(a)
  {
    if !(a[0] == '\r' && a[1] == '\n' && a[2] == '\r' && a[3] == '\n') {
      TerminatorHere(a[1..], k - 1);
      assert a[..k][1..] == a[1..][..k - 1];
    }
  }

  lemma {:induction false} FramesAppend(a: string, b: string)
    ensures Frames(a + b) == Frames(a) + Frames(Rest(a) + b)
    ensures Rest(a + b) == Rest(Rest(a) + b)
    decreases |a|
  {
    StepStays(a, b);
    match StepOf(a) {
      case Take(payload, rest) => FramesAppend(rest, b);
      case _ =>
    }
  }

  lemma {:induction false} MessagesAppend(a: seq<string>, b: seq<string>)
    ensures Messages(a + b) == Messages(a) + Messages(b)
  {
    if |a| == 0 {
      assert a + b == b;
    } else {
      MessagesAppend(a[1..], b);
      assert (a + b)[0] == a[0] && (a + b)[1..] == a[1..] + b;
      if Decode(a[0]).Some? {
        var v := [Decode(a[0]).value];
        assert v + (Messages(a[1..]) + Messages(b)) == (v + Messages(a[1..])) + Messages(b);
      }
    }
  }

  // ---------- conservation ----------

  /** What `ProcessBuffer` delivers and what it leaves make up what was there. */
  lemma {:induction false} ProcessConserves(buffer: string)
    ensures Process(buffer).delivered + Messages(Frames(Process(buffer).buffer)) == Messages(Frames(buffer))
    ensures Rest(Process(buffer).buffer) == Rest(buffer)
    ensures Process(buffer).delivered == Messages(GoodPrefix(Frames(buffer)))
    decreases |buffer|
  {
    match StepOf(buffer) {
      case Wait =>
      case Discard(kept) =>
        StepStays(buffer, "");
        assert buffer + "" == buffer && kept + "" == kept;
      case Take(payload, rest) =>
        if Decode(payload).Some? {
          ProcessConserves(rest);
          assert Frames(buffer)[1..] == Frames(rest);
          assert GoodPrefix(Frames(buffer))[1..] == GoodPrefix(Frames(rest));
        } else {
          assert Frames(buffer)[1..] == Frames(rest);
        }
    }
  }

  lemma PendingAppend(a: string, b: string)
    ensures Messages(Frames(a + b)) == Messages(Frames(a)) + Messages(Frames(Rest(a) + b))
  {
    FramesAppend(a, b);
    MessagesAppend(Frames(a), Frames(Rest(a) + b));
  }

  lemma Regroup(d: seq<Json>, more: seq<Json>, left: seq<Json>, held: seq<Json>, next: seq<Json>)
    requires more + left == held + next
    ensures (d + more) + left == (d + held) + next
  {
    assert (d + more) + left == d + (more + left);
    assert (d + held) + next == d + (held + next);
  }

  /** After `text`, `s` has delivered some of its messages and still holds the others. */
  ghost predicate Accounts(s: Stream, text: string) {
    s.delivered + Messages(Frames(s.buffer)) == Messages(Frames(text)) && Rest(s.buffer) == Rest(text)
  }

  lemma ReceiveConserves(s: Stream, text: string, chunk: string)
    requires Accounts(s, text)
    ensures Accounts(Receive(s, chunk), text + chunk)
  {
    if chunk == "" {
      assert text + "" == text;
    } else {
      var p := Process(s.buffer + chunk);
      assert Rest(p.buffer) == Rest(text + chunk) by {
        ProcessConserves(s.buffer + chunk);
        FramesAppend(s.buffer, chunk);
        FramesAppend(text, chunk);
      }
      var more := Messages(Frames(Rest(text) + chunk));
      assert p.delivered + Messages(Frames(p.buffer)) == Messages(Frames(s.buffer)) + more by {
        ProcessConserves(s.buffer + chunk);
        PendingAppend(s.buffer, chunk);
      }
      PendingAppend(text, chunk);
      Regroup(s.delivered, p.delivered, Messages(Frames(p.buffer)), Messages(Frames(s.buffer)), more);
    }
  }

  /** However the input is cut: no message is lost, repeated or reordered, and the
      buffer still holds the unfinished remainder. */
  lemma {:induction false} Conservation(chunks: seq<string>)
    requires Determined(Frames(Concat(chunks)))
    ensures Accounts(Feed(chunks), Concat(chunks))
  {
    if |chunks| > 0 {
      var before, chunk := chunks[..|chunks| - 1], chunks[|chunks| - 1];
      FramesAppend(Concat(before), chunk);
      Conservation(before);
      ReceiveConserves(Feed(before), Concat(before), chunk);
    }
  }

  /** What has been delivered is always a prefix of what the whole input holds. */
  lemma DeliveredAtMost(chunks: seq<string>)
    requires Determined(Frames(Concat(chunks)))
    ensures Feed(chunks).delivered <= Messages(Frames(Concat(chunks)))
  {
    Conservation(chunks);
  }

  // ---------- how much a cut can delay ----------

  /** The messages before the first payload that does not parse. */
  function Early(text: string): seq<Json> {
    Messages(GoodPrefix(Frames(text)))
  }

  lemma EarlyStep(text: string)
    ensures match StepOf(text)
            case Take(payload, rest) =>
              Early(text) == (match Decode(payload) case None => [] case Some(v) => [v] + Early(rest))
            case _ => Early(text) == []
  {
    match StepOf(text) {
      case Take(payload, rest) =>
        assert Frames(text)[1..] == Frames(rest);
        if Decode(payload).Some? {
          assert GoodPrefix(Frames(text))[1..] == GoodPrefix(Frames(rest));
        }
      case _ =>
    }
  }

  lemma {:induction false} ProcessAhead(buffer: string, x: string)
    ensures Early(buffer + x) <= Process(buffer).delivered + Early(Process(buffer).buffer + x)
    decreases |buffer|
  {
    StepStays(buffer, x);
    EarlyStep(buffer + x);
    match StepOf(buffer) {
      case Wait =>
      case Discard(kept) =>
      case Take(payload, rest) =>
        if Decode(payload).Some? {
          ProcessAhead(rest, x);
          ConsUnder(Decode(payload).value, Early(rest + x), Process(rest).delivered, Early(Process(rest).buffer + x));
        }
    }
  }

  lemma ConsUnder(v: Json, e: seq<Json>, d: seq<Json>, f: seq<Json>)
    requires e <= d + f
    ensures [v] + e <= ([v] + d) + f
  {
    PrefixUnder([v], e, d + f);
    assert [v] + (d + f) == ([v] + d) + f;
  }

  lemma PrefixUnder<T>(a: seq<T>, b: seq<T>, c: seq<T>)
    requires b <= c
    ensures a + b <= a + c
  {
    assert c == b + c[|b|..];
    assert a + c == (a + b) + c[|b|..];
  }

  lemma ReceiveAhead(s: Stream, c: string, x: string, early: seq<Json>)
    requires early <= s.delivered + Early(s.buffer + (c + x))
    ensures early <= Receive(s, c).delivered + Early(Receive(s, c).buffer + x)
  {
    if c == "" {
      assert c + x == x;
    } else {
      var b := s.buffer + c;
      assert b + x == s.buffer + (c + x);
      ProcessAhead(b, x);
      PrefixChain(early, s.delivered, Early(b + x), Process(b).delivered, Early(Process(b).buffer + x));
    }
  }

  lemma PrefixChain(early: seq<Json>, a: seq<Json>, b: seq<Json>, c: seq<Json>, d: seq<Json>)
    requires early <= a + b && b <= c + d
    ensures early <= (a + c) + d
  {
    PrefixUnder(a, b, c + d);
    assert a + (c + d) == (a + c) + d;
  }

  lemma {:induction false} FeedAhead(chunks: seq<string>, x: string)
    ensures Early(Concat(chunks) + x) <= Feed(chunks).delivered + Early(Feed(chunks).buffer + x)
  {
    if |chunks| == 0 {
      assert "" + x == x;
    } else {
      var before, c := chunks[..|chunks| - 1], chunks[|chunks| - 1];
      FeedAhead(before, c + x);
      assert (Concat(before) + c) + x == Concat(before) + (c + x);
      ReceiveAhead(Feed(before), c, x, Early(Concat(chunks) + x));
    }
  }

  /** Everything before the first bad payload has been delivered, however the input was cut. */
  lemma {:induction false} DeliveredAtLeast(chunks: seq<string>)
    requires Determined(Frames(Concat(chunks)))
    ensures Early(Concat(chunks)) <= Feed(chunks).delivered
  {
    if |chunks| == 0 {
      EarlyStep("");
    } else {
      var before, c := chunks[..|chunks| - 1], chunks[|chunks| - 1];
      if c == "" {
        FramesAppend(Concat(before), c);
        DeliveredAtLeast(before);
        assert Concat(before) + "" == Concat(before);
      } else {
        FeedAhead(before, c);
        ProcessConserves(Feed(before).buffer + c);
      }
    }
  }

  function Bytes(text: string): (chunks: seq<string>)
    ensures |chunks| == |text|
  {
    if |text| == 0 then [] else Bytes(text[..|text| - 1]) + [[text[|text| - 1]]]
  }

  lemma OneMoreByte(b: string, c: char)
    requires !StepOf(b).Take?
    ensures StepOf(b + [c]).Take? ==> StepOf(b + [c]).rest == ""
  {
    var t := b + [c];
    if FindTerminator(t).Some? && FindTerminator(t).value + 4 <= |b| {
      var where := FindTerminator(t).value;
      assert t[..|b|] == b;
      TerminatorHere(t, |b|);
      assert t[..where] == b[..where];
    }
  }

  /** The state in which all that is complete in `text` has been taken. */
  function Drained(text: string): Stream {
    Stream(Messages(Frames(text)), Rest(text))
  }

  lemma DrainedStep(text: string, chunk: string)
    requires Process(Rest(text) + chunk) == Drained(Rest(text) + chunk)
    ensures Receive(Drained(text), chunk) == Drained(text + chunk)
  {
    if chunk == "" {
      assert text + "" == text;
    } else {
      PendingAppend(text, chunk);
      FramesAppend(text, chunk);
    }
  }

  /** Byte by byte, a bad payload delays nothing. */
  lemma {:induction false} ByteByByte(text: string)
    ensures Concat(Bytes(text)) == text && Feed(Bytes(text)) == Drained(text) && !StepOf(Rest(text)).Take?
  {
    if |text| > 0 {
      var before, c := text[..|text| - 1], text[|text| - 1];
      assert text == before + [c];
      ByteByByte(before);
      FeedOneMore(Bytes(before), [c]);
      ByteStep(before, c);
    } else {
      DrainedEmpty();
    }
  }

  lemma DrainedEmpty()
    ensures Drained("") == Stream([], "") && !StepOf("").Take?
  {
  }

  lemma FeedOneMore(chunks: seq<string>, chunk: string)
    ensures Feed(chunks + [chunk]) == Receive(Feed(chunks), chunk)
    ensures Concat(chunks + [chunk]) == Concat(chunks) + chunk
  {
    assert (chunks + [chunk])[..|chunks|] == chunks;
  }

  lemma ByteStep(text: string, c: char)
    requires !StepOf(Rest(text)).Take?
    ensures Receive(Drained(text), [c]) == Drained(text + [c]) && !StepOf(Rest(text + [c])).Take?
  {
    OneMoreByte(Rest(text), c);
    ProcessOne(Rest(text) + [c]);
    DrainedStep(text, [c]);
    FramesAppend(text, [c]);
  }

  lemma ProcessOne(b: string)
    requires StepOf(b).Take? ==> StepOf(b).rest == ""
    ensures Process(b) == Drained(b) && !StepOf(Rest(b)).Take?
  {
    match StepOf(b) {
      case Take(payload, rest) =>
        assert Frames(b) == [payload] && Rest(b) == "" && Process("") == Stream([], "");
        assert Messages([payload][1..]) == [];
      case Discard(kept) =>
        StepStays(b, "");
        assert kept + "" == kept;
      case Wait =>
    }
  }

  lemma AllAtOnce(text: string)
    ensures Concat([text]) == text && Feed([text]).delivered == Early(text)
  {
    FeedOneMore([], text);
    assert [] + [text] == [text] && "" + text == text;
    ProcessConserves(text);
    EarlyStep(text);
    assert [] + Process(text).delivered == Process(text).delivered;
  }

  lemma Between(chunks: seq<string>)
    requires Determined(Frames(Concat(chunks)))
    requires Early(Concat(chunks)) == Messages(Frames(Concat(chunks)))
    ensures Feed(chunks).delivered == Messages(Frames(Concat(chunks)))
  {
    DeliveredAtLeast(chunks);
    DeliveredAtMost(chunks);
  }

  /** Every payload before one that parses parses too. */
  predicate InOrder(payloads: seq<string>) {
    forall i, j :: 0 <= i < j < |payloads| && Decode(payloads[j]).Some? ==> Decode(payloads[i]).Some?
  }

  lemma {:induction false} NoneParse(payloads: seq<string>)
    ensures Messages(payloads) == [] <==> forall i :: 0 <= i < |payloads| ==> Decode(payloads[i]).None?
  {
    if |payloads| > 0 {
      var rest := payloads[1..];
      NoneParse(rest);
      assert forall i :: 0 < i < |payloads| ==> payloads[i] == rest[i - 1];
      assert forall i :: 0 <= i < |rest| ==> rest[i] == payloads[i + 1];
    }
  }

  lemma {:induction false} NothingLate(payloads: seq<string>)
    ensures Messages(GoodPrefix(payloads)) == Messages(payloads) <==> InOrder(payloads)
  {
    if |payloads| > 0 {
      var rest := payloads[1..];
      assert forall i :: 0 < i < |payloads| ==> payloads[i] == rest[i - 1];
      assert forall i :: 0 <= i < |rest| ==> rest[i] == payloads[i + 1];
      if Decode(payloads[0]).Some? {
        NothingLate(rest);
        var v := Decode(payloads[0]).value;
        assert GoodPrefix(payloads)[1..] == GoodPrefix(rest);
        assert ([v] + Messages(GoodPrefix(rest)))[1..] == Messages(GoodPrefix(rest));
        assert ([v] + Messages(rest))[1..] == Messages(rest);
      } else {
        NoneParse(rest);
      }
    }
  }

  /** Delivery does not depend on how the input is cut, exactly when no message of it
      comes after a payload that does not parse. */
  lemma ChunkIndependence(text: string)
    requires Determined(Frames(text))
    ensures (forall a, b :: Concat(a) == text && Concat(b) == text ==> Feed(a).delivered == Feed(b).delivered)
            <==> InOrder(Frames(text))
  {
    ByteByByte(text);
    AllAtOnce(text);
    NothingLate(Frames(text));
    if InOrder(Frames(text)) {
      forall a, b | Concat(a) == text && Concat(b) == text ensures Feed(a).delivered == Feed(b).delivered {
        Between(a);
        Between(b);
      }
    } else {
      assert Concat([text]) == text && Concat(Bytes(text)) == text;
      assert Feed([text]).delivered != Feed(Bytes(text)).delivered;
    }
  }

  /** A frame that parses behind one that does not: received at once, it is not delivered;
      received byte by byte, it is. */
  lemma LateBehind(text: string, bad: string, good: string, v: Json)
    requires Frames(text) == [bad, good] && Decode(bad) == None && Decode(good) == Some(v)
    ensures Feed([text]).delivered == [] && Feed(Bytes(text)).delivered == [v]
  {
    OneMessage(bad, good, v);
    AllAtOnce(text);
    ByteByByte(text);
  }

  lemma OneMessage(bad: string, good: string, v: Json)
    requires Decode(bad) == None && Decode(good) == Some(v)
    ensures Messages([bad, good]) == [v] && Messages(GoodPrefix([bad, good])) == []
  {
    assert [bad, good][1..] == [good] && [good][1..] == [];
    assert Messages([good]) == [v] + Messages([]);
  }

  // ---------- when every payload parses ----------

  predicate AllParse(payloads: seq<string>) {
    forall k :: 0 <= k < |payloads| ==> Decode(payloads[k]).Some?
  }

  lemma {:induction false} ProcessAll(buffer: string)
    requires AllParse(Frames(buffer))
    ensures Process(buffer) == Drained(buffer)
    decreases |buffer|
  {
    match StepOf(buffer) {
      case Take(payload, rest) =>
        assert Frames(buffer)[0] == payload && Frames(buffer)[1..] == Frames(rest);
        assert forall k :: 0 <= k < |Frames(rest)| ==> Frames(rest)[k] == Frames(buffer)[k + 1];
        ProcessAll(rest);
      case _ =>
    }
  }

  /** If every complete payload parses, what is delivered and what is held depend on
      the text received and on nothing else. */
  lemma {:induction false} DeliversAll(chunks: seq<string>)
    requires AllParse(Frames(Concat(chunks)))
    ensures Feed(chunks) == Drained(Concat(chunks))
  {
    if |chunks| > 0 {
      var before, c := chunks[..|chunks| - 1], chunks[|chunks| - 1];
      var text := Concat(before);
      AllParseAppend(text, c);
      DeliversAll(before);
      ProcessAll(Rest(text) + c);
      DrainedStep(text, c);
    }
  }

  lemma AllParseAppend(a: string, b: string)
    requires AllParse(Frames(a + b))
    ensures AllParse(Frames(a)) && AllParse(Frames(Rest(a) + b))
  {
    FramesAppend(a, b);
    AllParseSplit(Frames(a), Frames(Rest(a) + b));
  }

  lemma AllParseSplit(a: seq<string>, b: seq<string>)
    requires AllParse(a + b)
    ensures AllParse(a) && AllParse(b)
  {
    assert forall k :: 0 <= k < |a| ==> a[k] == (a + b)[k];
    assert forall k :: 0 <= k < |b| ==> b[k] == (a + b)[|a| + k];
  }

  // ---------- a header section without a usable length ----------

  /** A complete header section in front, without a length or with one that is not positive. */
  predicate Unusable(buffer: string) {
    match FindTerminator(buffer)
    case None => false
    case Some(where) =>
      var headers := HeadersIn(buffer[..where]);
      CONTENT_LENGTH in headers ==> Atol(headers[CONTENT_LENGTH]) <= 0
  }

  lemma UnusableStays(a: string, b: string)
    requires Unusable(a)
    ensures Unusable(a + b) && !StepOf(a).Take?
    ensures StepOf(a).Discard? ==> Unusable(StepOf(a).kept)
  {
    var where := FindTerminator(a).value;
    TerminatorStays(a, b);
    TerminatorHere(a, where + 4);
    assert (a + b)[..where] == a[..where] == a[..where + 4][..where];
  }

  /** Nothing is ever delivered again. */
  lemma {:induction false} UnusableIsFinal(s: Stream, chunks: seq<string>)
    requires Unusable(s.buffer)
    ensures Resume(s, chunks).delivered == s.delivered && Unusable(Resume(s, chunks).buffer)
  {
    if |chunks| > 0 {
      var t, chunk := Resume(s, chunks[..|chunks| - 1]), chunks[|chunks| - 1];
      UnusableIsFinal(s, chunks[..|chunks| - 1]);
      UnusableStays(t.buffer, chunk);
      UnusableStays(t.buffer + chunk, "");
    }
  }

  /** The comment beside the source's `erase(headerSize)` says the section is removed.
      It is kept, and what follows it is erased: nothing is ever delivered again. */
  lemma {:induction false} MissingLengthIsFinal(s: Stream, chunks: seq<string>)
    requires StepOf(s.buffer) == Discard(s.buffer)
    ensures Resume(s, chunks) == s
  {
    if |chunks| > 0 {
      var chunk := chunks[|chunks| - 1];
      MissingLengthIsFinal(s, chunks[..|chunks| - 1]);
      StepStays(s.buffer, chunk);
      assert s.delivered + [] == s.delivered;
    }
  }

  /** Every such section leads there. */
  lemma DiscardLeadsThere(buffer: string)
    requires StepOf(buffer).Discard?
    ensures Process(buffer).buffer == StepOf(buffer).kept
    ensures StepOf(Process(buffer).buffer) == Discard(Process(buffer).buffer)
  {
    StepStays(buffer, "");
    assert StepOf(buffer).kept + "" == StepOf(buffer).kept;
  }
}
