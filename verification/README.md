# A model of the debug adapter client

The repository is a Code::Blocks plug-in that drives a debugger through the Debug Adapter
Protocol. This project models the parts of it that compute: how JSON text is read and
written, how messages are cut out of a byte stream, what the client's session remembers,
how breakpoints are kept, and three smaller algorithms. Code that works step by step is
modelled by methods with loops over the same variables, each tied to a function; the
theorems are lemmas about those functions.

| files | what they model |
|---|---|
| `JsonValue`, `Decimal`, `JsonStrings`, `JsonPrinter`, `JsonParser`, `JsonRoundTrip`, `JsonLinks` | `cJSON.cpp`: parser, printers, list surgery |
| `JsonLiterals`, `JsonGrammar`, `JsonLayout` | which texts the parser reads, as what, and what printed text looks like |
| `JsonAccess`, `DapMessages`, `DapWire`, `EndToEnd` | `JSON.cpp`, `dap.cpp`: reading and building messages, and the way from one end to the other |
| `TextUtils`, `Framing`, `Transport`, `Headers` | `JsonRPC.cpp`, `JsonRPC.hpp`: messages in a stream |
| `Session`, `SessionRuns`, `SessionHistory` | `Client.cpp`, `Client.hpp`: the session, client and server as one system, and what the history of a run tells |
| `Breakpoints`, `BreakpointStore`, `BreakpointInvariants`, `BreakpointShift`, `BreakpointSync`, `BreakpointEffects`, `BreakpointRuns` | `DAP_Breakpoints.cpp`: shared breakpoint objects, their index by file, what the debugger was sent |
| `CommandLine`, `CommandWords`, `RelativePath`, `PathForms`, `WatchTree` | `StringUtils.cpp`, `plugin.cpp`, `DAP_Watches.cpp` |

Conventions. A text is a `string` with one character for one byte. A C string is a
`string` and an index; reading at the end gives the terminator. A parser returns
`Got`, `Rejected`, or `Undefined`, the last for text on which the source steps over the
terminator, stores more than it measured, or uses a variable that has no value yet. A
message's `delivered` sequence stands for the calls of the callback. In the session, an
`Outcome` is a response passed on with what the client remembered for its request. A
breakpoint store's `sent` is what the debugger of the present session was sent.

Where the code departs from its promise, the model follows the code, and a theorem says
exactly when the promise holds. The names after a semicolon are reachable inputs on which
it does not:

- surrogate pairs (`SurrogatePairs`), `GetBool` (`GetBoolReads`), negative source
  references (`SentIsSame`), the line of a breakpoint location (`LocationSurvives`);
- literals whose text does not fit the buffer measured for it (`PassesAgree`;
  `StoresMoreThanMeasured`);
- header sections without a length or with one that is not positive (`StuckIff`;
  `HeadersWithoutLength`), and messages behind a payload that does not parse
  (`ChunkIndependence`; `LateMessage`);
- variable requests without a queue entry (`CarefulIff`; `InfoTakesTag`), and responses
  before the handshake is complete (`NeverEarlyIff`; `EarlyAnswerRun`);
- what the debugger knows of breakpoints (`StaysInformed`): deleting a file's last
  breakpoint or its line (`DeleteInStep`, `ShiftUndefined`; `LastOfFile`), moving a
  breakpoint onto a deleted line (`ConsistentIff`; `MovedOntoDeleted`), lines inserted while
  the debugger runs (`ShiftInStep`; `LineInserted`), and an answer that names another file
  for a known id (`UpdateInStep`; `OtherFileNamed`);
- the variables of a response when one of them has the watch's name (`UnderOneWatch`;
  `TwoWatches`), and variables without names (`NameChangesLater`);
- arguments that end in backslashes (`TokenisingUndoesQuoting`; `BackslashSwallowed`), and
  paths with quotes of their own around them (`QuotedResolves`).

The callers of `BuildArgv` and `WrapWithQuotes` are not part of this model.
`MakeRequest() = MakeRequest()` takes two numbers and keeps the first of them, as the
right side of an assignment is evaluated first. `JsonStrings.Scanned` is the number that
`sscanf("%4x")` stores: blanks are skipped, and a sign and `0x` count among its four
characters. Where it stores none the variable keeps what an earlier escape of the literal
has left in it, shifts included (`JsonStrings.Vars`).

## Model

| member | source | states |
|---|---|---|
| JsonStrings.BitForms | src/DebugAdapterProtocol/cJSON.cpp:321-366 | the masks, shifts and ors on code points are the remainders, quotients and sums used in the model |
| JsonStrings.FourDigits | src/DebugAdapterProtocol/cJSON.cpp:307 | of four hexadecimal digits the scanned number is the one they write |
| JsonStrings.SurrogatePairs | src/DebugAdapterProtocol/cJSON.cpp:329 | a surrogate pair comes out as section 2.2 of RFC 2781 says if and only if bit 0x40 of the high half is clear, as it is for plane 1, and 0x10000 too low otherwise |
| JsonStrings.EncodesRfc3629 | src/DebugAdapterProtocol/cJSON.cpp:332-369 | the bytes stored for a non-surrogate code point are the one sequence that section 3 of RFC 3629 decodes to it |
| JsonStrings.PassesAgree | src/DebugAdapterProtocol/cJSON.cpp:257-381 | with four plain characters behind each `\u` the first pass does not step over the terminator, and the second, unless it uses a variable without a value, stops at the same place and writes at most what the first counted |
| JsonStrings.ShortNumberIsRead | src/DebugAdapterProtocol/cJSON.cpp:305-308 | a `\u` with two digits stands for the number they write, and skips four characters |
| JsonStrings.NumberIsLeft | src/DebugAdapterProtocol/cJSON.cpp:305-370 | a `\u` without a digit stands for what the one before it has left |
| JsonStrings.StoresMoreThanMeasured | src/DebugAdapterProtocol/cJSON.cpp:257-308 | a literal with a quote among the four characters: two characters are counted and four stored |
| JsonStrings.UnescapeResult | src/DebugAdapterProtocol/cJSON.cpp:270-381 | the stored text has no NUL, and what is left is a suffix that begins at the quote or terminator |
| JsonStrings.StoreUtf8 | src/DebugAdapterProtocol/cJSON.cpp:332-369 | storing backwards leaves exactly the encoded form after what was there, and nothing behind it changes |
| JsonStrings.StoreUnicode | src/DebugAdapterProtocol/cJSON.cpp:305-370 | the `\u` case stores the piece's bytes, ends on its last character, and leaves its variables to the next one, lone halves, zero and missing numbers included |
| JsonStrings.MeasureLoop | src/DebugAdapterProtocol/cJSON.cpp:257-261 | the first pass returns the measured length |
| JsonStrings.StorePiece | src/DebugAdapterProtocol/cJSON.cpp:273-378 | one turn of the second pass stores one piece |
| JsonStrings.StoreLoop | src/DebugAdapterProtocol/cJSON.cpp:270-379 | the second pass fills a buffer that has room with the unescaped text, never outside it |
| JsonStrings.ParseString | src/DebugAdapterProtocol/cJSON.cpp:243-391 | whenever neither pass leaves its text or buffer or uses a variable without a value: the literal's text, and an end after the start and inside the text |
| JsonStrings.EscapedLength | src/DebugAdapterProtocol/cJSON.cpp:408-421 | the counted length is the length of the escaped text |
| JsonStrings.StoreEscape | src/DebugAdapterProtocol/cJSON.cpp:434-481 | one character's escape is stored |
| JsonStrings.PrintStringPtr | src/DebugAdapterProtocol/cJSON.cpp:394-485 | exactly the computed length plus three characters are written: quotes, escaped text, terminator |
| JsonStrings.StringRoundTrip | src/DebugAdapterProtocol/cJSON.cpp:243-485 | parsing a printed string, whatever follows it, gives the string and leaves what follows |
| JsonLiterals.LiteralMeans | src/DebugAdapterProtocol/cJSON.cpp:243-391 | a literal is read as the concatenation of what its parts mean: characters, short escapes, four-digit escapes as the UTF-8 form of their code point, pairs as that of theirs, and nothing for NUL, lone halves and broken pairs; unclosed literals go to the end of the text |
| JsonLiterals.HexDigits | src/DebugAdapterProtocol/cJSON.cpp:307 | hexadecimal digits of both cases, and what they count |
| JsonLiterals.ScansNumber | src/DebugAdapterProtocol/cJSON.cpp:307 | blanks, a sign that counts among the four characters, `0x`, and digits |
| JsonLiterals.LeftOver | src/DebugAdapterProtocol/cJSON.cpp:305-370 | what an escape leaves in its variable is what the first byte holds beside its mark |
| JsonLiterals.MissingNumber | src/DebugAdapterProtocol/cJSON.cpp:305-370 | without a number the escape stands for that |
| JsonLiterals.EscapeForms | src/DebugAdapterProtocol/cJSON.cpp:408-481 | the seven short escapes, `\u00` and two digits for other control characters, everything else as it is |
| JsonLiterals.NumberMeans | src/DebugAdapterProtocol/cJSON.cpp:142-199 | every number, leading zero, fraction and exponent included, is read as its digits times a power of ten |
| JsonLiterals.PowersOfTen | src/DebugAdapterProtocol/cJSON.cpp:196 | the powers of ten, negative ones included |
| JsonGrammar.SkipsBlanks | src/DebugAdapterProtocol/cJSON.cpp:501-510 | exactly the characters from 1 to 32 are skipped |
| JsonGrammar.ReadsTheGrammar | src/DebugAdapterProtocol/cJSON.cpp:542-890 | the parser reads a value and stops behind it if and only if the text is that value in the grammar: words, numbers, literals, items and members with commas and colons between them and blanks around them |
| JsonGrammar.ParseReads | src/DebugAdapterProtocol/cJSON.cpp:512-530 | a whole text likewise, after its leading blanks |
| JsonLayout.LeavesLayout | src/DebugAdapterProtocol/cJSON.cpp:202-216 | words, integers and strings as they are printed |
| JsonLayout.EmptyLayout | src/DebugAdapterProtocol/cJSON.cpp:699-730 | empty arrays and objects in both modes |
| JsonLayout.ArrayLayout | src/DebugAdapterProtocol/cJSON.cpp:764-790 | items on one line, a comma between two, and a blank behind it in the indented form |
| JsonLayout.ObjectCompact | src/DebugAdapterProtocol/cJSON.cpp:982-1028 | members with a colon inside and a comma between |
| JsonLayout.ObjectIndented | src/DebugAdapterProtocol/cJSON.cpp:982-1028 | each member on a line of its own, as deep as it is nested |
| JsonPrinter.PrintNumber | src/DebugAdapterProtocol/cJSON.cpp:202-216 | a 32-bit integer's text fits its 21 characters |
| JsonPrinter.JoinFits | src/DebugAdapterProtocol/cJSON.cpp:731-779 | the joined entries with brackets and terminator fit the sum of the first pass |
| JsonPrinter.LinesFit | src/DebugAdapterProtocol/cJSON.cpp:938-1028 | the lines of an object fit the sum of the first pass |
| JsonPrinter.ComposeItems | src/DebugAdapterProtocol/cJSON.cpp:764-790 | the second pass over an array writes the joined entries, inside the buffer |
| JsonPrinter.ComposeLines | src/DebugAdapterProtocol/cJSON.cpp:982-1028 | the second pass over an object writes its lines, inside the buffer |
| JsonPrinter.PrintArray | src/DebugAdapterProtocol/cJSON.cpp:699-796 | the buffer holds the array's text, for every depth and both modes |
| JsonPrinter.PrintObject | src/DebugAdapterProtocol/cJSON.cpp:893-1041 | the buffer holds the object's text, for every depth and both modes |
| JsonPrinter.Print | src/DebugAdapterProtocol/cJSON.cpp:593-634 | the buffer holds the text of the tree |
| JsonPrinter.PrintNulFree | src/DebugAdapterProtocol/cJSON.cpp:593-634 | printed text has no NUL, so it is a C string |
| JsonParser.Skip | src/DebugAdapterProtocol/cJSON.cpp:501-510 | skips exactly the leading characters up to space, and stops at the terminator |
| JsonParser.ParseNumber | src/DebugAdapterProtocol/cJSON.cpp:142-199 | sign, digits, fraction and exponent give the scaled value, and the end of the number |
| JsonParser.ParseValue | src/DebugAdapterProtocol/cJSON.cpp:542-590 | the value at an index, or its rejection; an end after the start and inside the text |
| JsonParser.ParseArray | src/DebugAdapterProtocol/cJSON.cpp:637-697 | the items in order |
| JsonParser.ParseObject | src/DebugAdapterProtocol/cJSON.cpp:799-890 | the members in order, duplicates kept |
| JsonParser.ParseText | src/DebugAdapterProtocol/cJSON.cpp:512-530 | the first value of a text |
| JsonParser.ValueAt | src/DebugAdapterProtocol/cJSON.cpp:542-590 | parsing ends on every text, and a success uses up at least one character |
| JsonRoundTrip.NumberRoundTrip | src/DebugAdapterProtocol/cJSON.cpp:142-216 | the digits of an integer, followed by what cannot extend them, parse to it |
| JsonRoundTrip.ValueRoundTrip | src/DebugAdapterProtocol/cJSON.cpp:542-1041 | the printed text of any tree, at any depth, in either mode, followed by anything that cannot extend a number, parses to the tree and leaves what follows |
| JsonRoundTrip.ParsePrinted | src/DebugAdapterProtocol/cJSON.cpp:512-540 | a whole text in either mode parses to the tree it was printed from |
| JsonLinks.Item.AddItem | src/DebugAdapterProtocol/cJSON.cpp:1103-1125 | appends to the sequence along `next`, and keeps `prev` its inverse |
| JsonLinks.Item.DetachItem | src/DebugAdapterProtocol/cJSON.cpp:1150-1181 | removes at an index, a negative one being the first; nothing if there is no such item |
| JsonLinks.Item.ReplaceItem | src/DebugAdapterProtocol/cJSON.cpp:1209-1242 | updates at an index and cuts the old item off |
| JsonLinks.ChainUnique | src/DebugAdapterProtocol/cJSON.cpp:1080-1084 | the links determine the sequence |
| JsonLinks.PrevInvertsNext | src/DebugAdapterProtocol/cJSON.cpp:1080-1084 | `prev` is the exact inverse of `next`, and only the head has none |
| JsonAccess.GetBoolReads | src/DebugAdapterProtocol/JSON.cpp:279-287 | a boolean is read back if and only if it is true or the default is false |
| DapWire.FirstIsRead | src/DebugAdapterProtocol/JSON.cpp:108-128 | the first property of a name is read |
| DapWire.IntegersAreCut | src/DebugAdapterProtocol/JSON.cpp:269-277 | numbers are cut towards zero |
| DapWire.OtherTypes | src/DebugAdapterProtocol/JSON.cpp:249-325 | values of other types are read as the default; only arrays and objects have children |
| DapWire.ListsRead | src/DebugAdapterProtocol/JSON.cpp:357-374 | one text for each item of an array |
| DapWire.AddsLast | src/DebugAdapterProtocol/JSON.cpp:376-395 | adding makes one last child of an object or array, and hides none |
| JsonAccess.GetStringArray | src/DebugAdapterProtocol/JSON.cpp:357-374 | the strings of an array, in order |
| JsonAccess.StringArray | src/DebugAdapterProtocol/JSON.cpp:345-355 | the array that reads back as the strings |
| DapMessages.SourceRoundTrip | src/DebugAdapterProtocol/dap.cpp:436-462 | a source is read back, a negative reference as none |
| DapMessages.SourceBreakpointRoundTrip | src/DebugAdapterProtocol/dap.cpp:1174-1186 | read back as sent |
| DapMessages.BreakpointRoundTrip | src/DebugAdapterProtocol/dap.cpp:490-514 | read back as sent, but for its source's reference |
| DapMessages.StackFrameRoundTrip | src/DebugAdapterProtocol/dap.cpp:466-486 | read back as sent, but for its source's reference |
| DapMessages.HintRoundTrip | src/DebugAdapterProtocol/dap.cpp:1544-1560 | read back as sent, attributes in order |
| DapMessages.VariableRoundTrip | src/DebugAdapterProtocol/dap.cpp:1564-1582 | read back as sent |
| DapMessages.LocationSurvives | src/DebugAdapterProtocol/dap.cpp:1036-1052 | a breakpoint location is read back if and only if it has neither line nor end line |
| DapMessages.MessageRoundTrip | src/DebugAdapterProtocol/dap.cpp:1274-1285 | every message of the four kinds is read back from its JSON form, but for negative references |
| DapMessages.SentIsSame | src/DebugAdapterProtocol/dap.cpp:436-462 | that is the message itself if and only if it has no negative reference |
| DapWire.SourceNames | src/DebugAdapterProtocol/dap.cpp:436-454 | the names of a source's properties, left out when empty |
| DapWire.SourceBreakpointNames | src/DebugAdapterProtocol/dap.cpp:1174-1180 | those of a source breakpoint |
| DapWire.BreakpointNames | src/DebugAdapterProtocol/dap.cpp:490-502 | those of a breakpoint |
| DapWire.LocationNames | src/DebugAdapterProtocol/dap.cpp:1036-1044 | those of a breakpoint location |
| DapWire.StackFrameNames | src/DebugAdapterProtocol/dap.cpp:466-475 | those of a stack frame |
| DapWire.HintNames | src/DebugAdapterProtocol/dap.cpp:1544-1552 | those of a presentation hint |
| DapWire.VariableNames | src/DebugAdapterProtocol/dap.cpp:1564-1573 | those of a variable |
| DapWire.MessageNames | src/DebugAdapterProtocol/dap.cpp:1210-1285 | those of the four messages, their types and commands, and the arrays in them |
| DapWire.MissingFields | src/DebugAdapterProtocol/dap.cpp:436-514 | what is read where a property is missing |
| DapWire.KindsRead | src/DebugAdapterProtocol/dap.cpp:1274-1285 | which types and commands are read, and as what |
| DapMessages.BuildRequest | src/DebugAdapterProtocol/dap.cpp:1210-1285 | the request is built member by member |
| DapMessages.BuildSetBreakpoints | src/DebugAdapterProtocol/dap.cpp:1473-1486 | the breakpoints are pushed in order |
| DapMessages.BuildStackTrace | src/DebugAdapterProtocol/dap.cpp:1749-1760 | the frames are pushed in order |
| DapMessages.BuildVariables | src/DebugAdapterProtocol/dap.cpp:1799-1810 | the variables are pushed in order |
| DapMessages.ReadLines | src/DebugAdapterProtocol/dap.cpp:1224-1237 | the lines are read in order |
| DapMessages.ReadBreakpoints | src/DebugAdapterProtocol/dap.cpp:1488-1502 | the breakpoints are read in order |
| DapMessages.ReadStackFrames | src/DebugAdapterProtocol/dap.cpp:1762-1776 | the frames are read in order |
| DapMessages.ReadVariables | src/DebugAdapterProtocol/dap.cpp:1812-1825 | the variables read join those already there |
| EndToEnd.WireIdentity | src/DebugAdapterProtocol/dap.cpp:1473-1502 | printed and parsed, a message is itself if and only if it has no negative reference |
| EndToEnd.Conversation | src/DebugAdapterProtocol/JsonRPC.hpp:54-69 | messages sent as a stream and received in chunks cut anywhere: those that have arrived whole have been read, in order, each as sent |
| Framing.StepStays | src/DebugAdapterProtocol/JsonRPC.cpp:13-63 | what later input cannot change about one look at the buffer |
| Framing.FramesAppend | src/DebugAdapterProtocol/JsonRPC.cpp:13-63 | frames complete in a buffer stay the first ones when input is added |
| Headers.FirstEmptyLine | src/DebugAdapterProtocol/JsonRPC.cpp:82 | a header section ends at the first empty line |
| Headers.TokensSplit | src/DebugAdapterProtocol/JsonRPC.cpp:90 | lines are what is between line ends, empty ones left out |
| Headers.HeaderReads | src/DebugAdapterProtocol/JsonRPC.cpp:92-98 | a line is read as name and value, blanks around both aside |
| Headers.LengthReads | src/DebugAdapterProtocol/JsonRPC.cpp:42 | blanks, a sign, digits, and anything behind them |
| Framing.Conservation | src/DebugAdapterProtocol/JsonRPC.cpp:65-112 | over any chunks nothing is lost, invented or reordered, and the buffer holds the unfinished remainder |
| Framing.DeliveredAtMost | src/DebugAdapterProtocol/JsonRPC.cpp:65-112 | what is delivered is a prefix of the values of the complete frames |
| Framing.DeliveredAtLeast | src/DebugAdapterProtocol/JsonRPC.cpp:65-112 | all values before the first payload that does not parse are delivered, however the input is cut |
| Framing.ChunkIndependence | src/DebugAdapterProtocol/JsonRPC.cpp:13-112 | every cutting of a text delivers the same if and only if no complete frame that parses comes after one that does not |
| Framing.LateBehind | src/DebugAdapterProtocol/JsonRPC.cpp:65-78 | a frame that parses behind one that does not is delivered if it comes byte by byte, and is not if it comes at once |
| Framing.DeliversAll | src/DebugAdapterProtocol/JsonRPC.cpp:13-112 | when all payloads parse, the callbacks are the complete frames and the buffer is what is left |
| Framing.MissingLengthIsFinal | src/DebugAdapterProtocol/JsonRPC.cpp:31-39 | after a header section without a length nothing is delivered any more, whatever arrives |
| Framing.DiscardLeadsThere | src/DebugAdapterProtocol/JsonRPC.cpp:31-39 | the erase keeps the header section and drops what follows, so the buffer is in that state |
| EndToEnd.StuckIff | src/DebugAdapterProtocol/JsonRPC.cpp:28-56 | once a header section is complete and its message is not: no input whatever delivers another message, if and only if it has no length or one that is not positive |
| Transport.JsonRpc.AppendBuffer | src/DebugAdapterProtocol/JsonRPC.cpp:109-112 | appends |
| Transport.JsonRpc.ReadHeaders | src/DebugAdapterProtocol/JsonRPC.cpp:80-102 | the header size, and the first value of every name |
| Transport.JsonRpc.DoProcessBuffer | src/DebugAdapterProtocol/JsonRPC.cpp:13-63 | one look: wait, erase after the headers, or take a payload and its bytes |
| Transport.JsonRpc.ProcessBuffer | src/DebugAdapterProtocol/JsonRPC.cpp:65-78 | the loop ends, and delivers what the stream says |
| Transport.Send | src/DebugAdapterProtocol/JsonRPC.hpp:54-69 | the bytes of one message |
| Headers.Sends | src/DebugAdapterProtocol/JsonRPC.hpp:54-69 | `Content-Length: `, the payload's length, an empty line, the payload |
| Transport.TakesMessage | src/DebugAdapterProtocol/JsonRPC.cpp:13-102 | a whole message, with other header lines before or after its length, is taken whatever follows |
| Transport.WaitsForMessage | src/DebugAdapterProtocol/JsonRPC.cpp:13-102 | any part of a message is left alone |
| Transport.WireFrames | src/DebugAdapterProtocol/JsonRPC.cpp:13-102 | a stream of messages and part of another has exactly those frames and that rest |
| Transport.HeadersWithoutLength | src/DebugAdapterProtocol/JsonRPC.cpp:31-39 | a buffer of which nothing is ever removed |
| EndToEnd.LateMessage | src/DebugAdapterProtocol/JsonRPC.cpp:65-78 | a stream whose second message depends on the cutting |
| Transport.Delivery | src/DebugAdapterProtocol/JsonRPC.cpp:13-112 | for every cutting, the callbacks so far are exactly the payloads that have arrived whole, in order, and the buffer is exactly the part of the next |
| Session.Client.constructor | src/DebugAdapterProtocol/Client.cpp:107-113 | a fresh session |
| Session.Client.Reset | src/DebugAdapterProtocol/Client.cpp:554-574 | back to a fresh session |
| Session.Client.SetTransport | src/DebugAdapterProtocol/Client.cpp:121-129 | a fresh session that can send |
| Session.Client.GetNextSequence | src/DebugAdapterProtocol/Client.hpp:180-184 | counts up by one |
| Session.Client.TakeNumber | src/DebugAdapterProtocol/Client.hpp:163-169 | one or two numbers are used up, and the first is kept |
| Session.Client.SendRequest | src/DebugAdapterProtocol/Client.cpp:869-891 | sent, or the session is reset |
| Session.Client.DoInitialize | src/DebugAdapterProtocol/Client.cpp:578-598 | the state after it |
| Session.Client.GetFrames | src/DebugAdapterProtocol/Client.cpp:653-663 | the thread is queued, the active one if none is given |
| Session.Client.GetScopes | src/DebugAdapterProtocol/Client.cpp:643-651 | the frame is queued |
| Session.Client.GetChildrenVariables | src/DebugAdapterProtocol/Client.cpp:755-767 | reference and context are queued |
| Session.Client.GetVariableInfo | src/DebugAdapterProtocol/Client.cpp:826-838 | nothing is queued |
| Session.Client.SetBreakpointsFile | src/DebugAdapterProtocol/Client.cpp:600-611 | the file is queued |
| Session.Client.LoadSource | src/DebugAdapterProtocol/Client.cpp:919-937 | the callback is queued, or nothing happens without a reference |
| Session.Client.EvaluateExpression | src/DebugAdapterProtocol/Client.cpp:939-973 | the callback is queued |
| Session.Client.BreakpointLocations | src/DebugAdapterProtocol/Client.cpp:778-793 | the file is entered under the request's number, if the server has the feature |
| Session.Client.Launch | src/DebugAdapterProtocol/Client.cpp:620-633 | no thread is active |
| Session.Client.OnMessage | src/DebugAdapterProtocol/Client.cpp:225-478 | the state after a message and whatever its handler asks for; the tag leaves the queue first; a stop makes its thread the active one |
| Session.Client.OnResponse | src/DebugAdapterProtocol/Client.cpp:334-469 | the state after a response |
| Session.Client.TakeTag | src/DebugAdapterProtocol/Client.cpp:481-512 | the front of the command's queue, if there is one |
| SessionRuns.AnswerGetsOwnTag | src/DebugAdapterProtocol/Client.cpp:334-415 | in an aligned state the response to the oldest unanswered request gets that request's tag |
| SessionRuns.RunKeeps | src/DebugAdapterProtocol/Client.cpp:334-512 | in every run, handlers issuing requests included: five queues are exactly the tags of the unanswered requests in send order, each response was passed on once with its own tag, wire numbers increase strictly, and breakpoint location responses get their own file, once, in any order |
| SessionRuns.CarefulRunKeepsVariables | src/DebugAdapterProtocol/Client.cpp:755-766 | the same for `variables`, if none with a tag is sent while one without is unanswered |
| SessionRuns.CarelessSpoils | src/DebugAdapterProtocol/Client.cpp:755-766 | sending one with a tag behind one without makes the responses to come take wrong tags |
| SessionRuns.CarefulIff | src/DebugAdapterProtocol/Client.cpp:361-373 | at every moment of a run, inside handlers too, the unanswered `variables` requests will get their own tags, if and only if the run never sends one with a tag while one without is unanswered |
| SessionRuns.NoInfoIsCareful | src/DebugAdapterProtocol/Client.cpp:826-838 | runs without `GetVariableInfo` are such runs |
| SessionRuns.OwnVariables | src/DebugAdapterProtocol/Client.cpp:361-373 | getting their own tags is what their responses do; while the queue is their tags, it happens if and only if none with a tag is behind one without |
| SessionRuns.InfoTakesTag | src/DebugAdapterProtocol/Client.cpp:826-838 | a run in which the answer about one variable is taken for another's children |
| SessionRuns.NeverEarlyIff | src/DebugAdapterProtocol/Client.cpp:235-415 | in runs whose responses come at any time, for each tracked command (for `variables` where the run is careful): at every moment the requests answered so far have been passed on once each, in order, with their own tags, if and only if no response to the command came before the handshake was complete |
| SessionRuns.EarlyAnswerShifts | src/DebugAdapterProtocol/Client.cpp:235-290 | in such a state the response is dropped, and the next one gets its tag |
| SessionRuns.EarlyAnswerRun | src/DebugAdapterProtocol/Client.cpp:235-290 | a run in which the scopes of one frame are taken for another's |
| SessionRuns.Drive | src/DebugAdapterProtocol/Client.cpp:225-478 | a client object taken through a run ends in the run's state |
| SessionHistory.HistoryTells | src/DebugAdapterProtocol/Client.cpp:225-582 | in every run, read off its history: the handshake is complete if its response came and nothing has started over since; the active thread is that of the last accepted stop, and none after a launch or a connection; one can interact if and only if the last of the accepted stops, continuations and step responses was a stop; the server offers locations if a response that completed a handshake said so |
| SessionHistory.FramesOfLastStop | src/DebugAdapterProtocol/Client.cpp:653-662 | after any run a call for frames without a thread asks for those of the thread of the last stop |
| SessionHistory.CallAsks | src/DebugAdapterProtocol/Client.cpp:554-973 | what each call puts on the wire, with which tag, and how many numbers it uses |
| SessionHistory.CallWithoutTransport | src/DebugAdapterProtocol/Client.cpp:869-891 | without a transport a call leaves a fresh client |
| SessionHistory.Unexpected | src/DebugAdapterProtocol/Client.cpp:334-512 | a response nobody waits for is passed on without a tag, or, for sources and evaluations, not at all |
| BreakpointStore.Store.constructor | src/DebugAdapterClient/DAP_Breakpoints.cpp:31-38 | an empty store |
| BreakpointStore.Store.SetDebuggerState | src/DebugAdapterClient/DAP_Debugger_State.cpp:35-62 | running and stopped as the model sees them; a session that begins has been sent nothing |
| BreakpointStore.Store.FindBreakpoint | src/DebugAdapterClient/DAP_Breakpoints.cpp:269-290 | the first breakpoint at the place |
| BreakpointStore.Store.GetBreakpointByID | src/DebugAdapterClient/DAP_Breakpoints.cpp:253-266 | the first breakpoint with the id |
| BreakpointStore.Store.UpdateMapFileBreakPoints | src/DebugAdapterClient/DAP_Breakpoints.cpp:291-372 | the index after adding, or after removing the first entry on the line; a bucket goes with its last entry |
| BreakpointStore.Store.UpdateDAPSetBreakpointsByFileName | src/DebugAdapterClient/DAP_Breakpoints.cpp:375-479 | the enabled lines of the file's bucket are sent, or the index is read past its end |
| BreakpointStore.Store.UpdateOrAddBreakpoint | src/DebugAdapterClient/DAP_Breakpoints.cpp:490-552 | found by id, else by place, else made; the whole new state; the id given, and what was asked, on the breakpoint returned |
| BreakpointStore.Store.AddBreakpoint | src/DebugAdapterClient/DAP_Breakpoints.cpp:482-487 | the same with no id, enabled |
| BreakpointStore.Store.EnableBreakpoint | src/DebugAdapterClient/DAP_Breakpoints.cpp:831-867 | the whole new state, objects shared with the index included |
| BreakpointStore.Store.DeleteBreakpoint | src/DebugAdapterClient/DAP_Breakpoints.cpp:555-619 | the whole new state |
| BreakpointStore.Store.DeleteAllBreakpoints | src/DebugAdapterClient/DAP_Breakpoints.cpp:622-641 | every file of the index is sent an empty list if running, and all is cleared |
| BreakpointStore.Store.DAPDebuggerResetData | src/DebugAdapterClient/DAP_Breakpoints.cpp:879-892 | what each kind of reset clears |
| BreakpointStore.Store.CreateStartBreakpoints | src/DebugAdapterClient/DAP_Breakpoints.cpp:197-228 | the index is completed from the list and every file sent once |
| BreakpointStore.Store.ShiftAllFileBreakpoints | src/DebugAdapterClient/DAP_Breakpoints.cpp:759-828 | breakpoints move first, then those on deleted lines are deleted one by one |
| BreakpointInvariants.OwnEntry | src/DebugAdapterClient/DAP_Breakpoints.cpp:313-325 | in a consistent store the entry found by line is the breakpoint itself |
| BreakpointInvariants.StartCompletes | src/DebugAdapterClient/DAP_Breakpoints.cpp:197-228 | afterwards each bucket is exactly the list's breakpoints of its file, and every lookup was defined |
| BreakpointRuns.RunLists | src/DebugAdapterClient/DAP_Breakpoints.cpp:490-892 | in every run, whatever is inserted or deleted: no two breakpoints share file and line, and none share an id other than -1 |
| BreakpointRuns.RunKeeps | src/DebugAdapterClient/DAP_Breakpoints.cpp:197-892 | at every moment of a run no bucket is empty and buckets hold distinct objects of the list in their own file, if and only if no shift of the run moves an entry onto the line of a later entry it deletes |
| BreakpointRuns.Drive | src/DebugAdapterClient/DAP_Breakpoints.cpp:197-892 | a store object taken through any actions ends in the state of such a run |
| BreakpointEffects.UpdateEffect | src/DebugAdapterClient/DAP_Breakpoints.cpp:490-552 | the breakpoint with the id is switched and nothing else; otherwise the one at the place gets the id and is switched; otherwise a new one has place and id and is enabled; no other changes, and the id then finds the one returned |
| BreakpointEffects.UpdateSends | src/DebugAdapterClient/DAP_Breakpoints.cpp:490-552 | one list at most is sent, for the file named, and none where nothing is switched or made |
| BreakpointEffects.EnableEffect | src/DebugAdapterClient/DAP_Breakpoints.cpp:831-867 | the breakpoint is switched, and nothing else of any changes |
| BreakpointEffects.EnableSends | src/DebugAdapterClient/DAP_Breakpoints.cpp:831-867 | one list at most is sent, for its file |
| BreakpointEffects.DeleteEffect | src/DebugAdapterClient/DAP_Breakpoints.cpp:555-619 | the breakpoint is out of the list, and the others stay in order and as they are |
| BreakpointEffects.DeletionSends | src/DebugAdapterClient/DAP_Breakpoints.cpp:555-619 | one list at most is sent, for its file |
| BreakpointEffects.ShiftSendsOwn | src/DebugAdapterClient/DAP_Breakpoints.cpp:759-828 | a shift sends lists for its own file only, and none if it deletes nothing |
| BreakpointEffects.DeleteAllEffect | src/DebugAdapterClient/DAP_Breakpoints.cpp:622-641 | neither list nor index is left, and while running each file is sent one empty list |
| BreakpointEffects.ResetEffect | src/DebugAdapterClient/DAP_Breakpoints.cpp:879-892 | what each reset forgets |
| BreakpointEffects.StartSends | src/DebugAdapterClient/DAP_Breakpoints.cpp:197-228 | one list for each file, with exactly the lines of its enabled breakpoints |
| BreakpointEffects.EnabledLinesInOrder | src/DebugAdapterClient/DAP_Breakpoints.cpp:375-479 | the lines of a list are in the order of the bucket's entries |
| BreakpointInvariants.BucketLines | src/DebugAdapterClient/DAP_Breakpoints.cpp:291-372 | the lines of a bucket are distinct |
| BreakpointSync.UpdateInStep | src/DebugAdapterClient/DAP_Breakpoints.cpp:490-552 | adding keeps the debugger informed of every file; an update does if and only if it changed nothing or found a breakpoint of the file it was called with |
| BreakpointSync.EnableInStep | src/DebugAdapterClient/DAP_Breakpoints.cpp:831-867 | switching a breakpoint keeps the debugger informed, where ids are distinct, as `RunLists` shows for every run |
| BreakpointSync.DeleteInStep | src/DebugAdapterClient/DAP_Breakpoints.cpp:555-619 | deleting keeps the debugger informed if the file keeps a breakpoint or no file has any; otherwise the index is read past its end |
| BreakpointRuns.StaysInformed | src/DebugAdapterClient/DAP_Breakpoints.cpp:197-892 | after any run, from the start of a session on: at every moment of every run the last list sent for each file is exactly the lines of its enabled breakpoints, list and index agree and no lookup has failed, if and only if list and index agreed before the session and each operation fits the state it meets |
| BreakpointRuns.FitsInforms | src/DebugAdapterClient/DAP_Breakpoints.cpp:375-867 | an operation keeps it so if and only if: an update changes nothing or finds a breakpoint of its file or none; a deletion leaves its file a breakpoint or leaves none at all; a reset forgets nothing; a shift moves no entry onto a later one it deletes, does not delete the last of one file among others, and deletes some or moves no enabled one; the session stays |
| BreakpointRuns.BeginsInformed | src/DebugAdapterClient/DAP_Breakpoints.cpp:197-228 | the start of a session informs the debugger if and only if list and index agree and no lookup has failed before |
| BreakpointRuns.LastOfFile | src/DebugAdapterClient/DAP_Breakpoints.cpp:384-388 | a run with two files, in which deleting one file's breakpoint, or its line, reads the index past its end |
| BreakpointRuns.LineInserted | src/DebugAdapterClient/DAP_Breakpoints.cpp:821-825 | a run in which a line put in above a breakpoint moves it, and nothing is sent |
| BreakpointRuns.OtherFileNamed | src/DebugAdapterClient/DAP_Breakpoints.cpp:506-522 | a run in which an update by id sends the wrong file |
| BreakpointSync.StartInStep | src/DebugAdapterClient/DAP_Breakpoints.cpp:197-228 | the lists sent at the start inform the debugger of every breakpoint, if and only if it had not been told of breakpoints in files that have none |
| BreakpointSync.DeleteAllInStep | src/DebugAdapterClient/DAP_Breakpoints.cpp:622-641 | deleting everything keeps the debugger informed |
| BreakpointSync.ShiftInStep | src/DebugAdapterClient/DAP_Breakpoints.cpp:759-828 | where sharing is kept, a shift that deletes the last breakpoints of one file among others reads the index past its end; any other keeps the debugger informed if and only if it deletes a breakpoint or moves no enabled one |
| BreakpointShift.TracksText | src/DebugAdapterClient/DAP_Breakpoints.cpp:759-828 | a breakpoint stays if and only if its text line does, and then sits on that line of the edited text |
| BreakpointShift.OthersStay | src/DebugAdapterClient/DAP_Breakpoints.cpp:778-786 | other files' breakpoints are untouched |
| BreakpointShift.ShiftUnique | src/DebugAdapterClient/DAP_Breakpoints.cpp:778-819 | lines stay distinct, whatever was inserted or deleted |
| BreakpointShift.ShiftIndex | src/DebugAdapterClient/DAP_Breakpoints.cpp:816-819 | no bucket is left empty, and other files' buckets stay |
| BreakpointShift.BucketLinesStay | src/DebugAdapterClient/DAP_Breakpoints.cpp:778-819 | the bucket's lines are still exactly the list's lines of the file |
| BreakpointShift.BucketLinesDistinct | src/DebugAdapterClient/DAP_Breakpoints.cpp:778-819 | each once |
| BreakpointShift.StaleIff | src/DebugAdapterClient/DAP_Breakpoints.cpp:778-819 | a deleted breakpoint stays in the bucket if and only if one ahead of it there moved onto its line |
| BreakpointShift.ConsistentIff | src/DebugAdapterClient/DAP_Breakpoints.cpp:778-819 | list and index agree afterwards if and only if there is no such pair |
| BreakpointShift.CompleteStays | src/DebugAdapterClient/DAP_Breakpoints.cpp:778-819 | without such a pair the index still has every breakpoint |
| BreakpointRuns.MovedOntoDeleted | src/DebugAdapterClient/DAP_Breakpoints.cpp:778-819 | a run with breakpoints on lines 8 and 5, in which deleting lines 5 to 7 leaves the deleted one in the index and loses the other |
| BreakpointShift.ShiftUndefined | src/DebugAdapterClient/DAP_Breakpoints.cpp:384-388 | in a live session the shift reads the index past its end if and only if it deletes breakpoints, every entry of their file is deleted or moves onto the line of a deleted breakpoint, no two onto one, and another file has entries |
| BreakpointShift.LosesAll | src/DebugAdapterClient/DAP_Breakpoints.cpp:384-388 | where the index is complete that is: all breakpoints of the file are deleted, and another file has some |
| CommandLine.ScanSound | src/DebugAdapterProtocol/StringUtils.cpp:71-80 | an escape is always inside a quotation |
| CommandLine.SplitTokens | src/DebugAdapterProtocol/StringUtils.cpp:88-246 | the loop computes the scanner's tokens |
| CommandLine.BuildArgv | src/DebugAdapterProtocol/StringUtils.cpp:276-298 | the tokens, cut at a NUL, without the quotes around them |
| CommandLine.ScanQuoted | src/DebugAdapterProtocol/StringUtils.cpp:125-244 | inside any of the three quotations text without its quote is kept, escapes and all; an odd number of backslashes at its end leaves an escape open |
| CommandLine.ScanBetweenQuotes | src/DebugAdapterProtocol/StringUtils.cpp:96-244 | from any opening quote to the same closing one the text goes on with the token in progress, unless the closing one is escaped |
| CommandWords.WordsAreTokens | src/DebugAdapterProtocol/StringUtils.cpp:88-246 | any line of words, each of bare and quoted text in any order, with gaps of blanks and tabs between them: one token for each word |
| CommandWords.BitScans | src/DebugAdapterProtocol/StringUtils.cpp:88-246 | quoted and bare text goes on with the token in progress; a backslash goes only before the quotation's own quote |
| CommandWords.OpenQuotation | src/DebugAdapterProtocol/StringUtils.cpp:88-246 | a quotation that is not closed goes to the end of the line |
| CommandWords.TokenAsArgument | src/DebugAdapterProtocol/StringUtils.cpp:276-298 | double quotes around the whole token go, other quotes stay, and a NUL ends it |
| CommandLine.TokenisingUndoesQuoting | src/DebugAdapterProtocol/StringUtils.cpp:276-399 | for arguments that are not empty and have no tab, quote character or NUL: tokenising the quoted arguments gives them back if and only if none with a space ends in an odd number of backslashes |
| CommandLine.BackslashSwallowed | src/DebugAdapterProtocol/StringUtils.cpp:276-399 | an argument that loses its last backslash |
| RelativePath.ConvertToDAPFriendly | src/DebugAdapterClient/plugin.cpp:2078-2098 | slashes are turned and their runs collapsed, by repeated replacement, and text with spaces is quoted |
| RelativePath.ConvertToDAPDirectory | src/DebugAdapterClient/plugin.cpp:2101-2264 | the whole conversion on systems with one root |
| PathForms.FriendlyForm | src/DebugAdapterClient/plugin.cpp:2078-2098 | however a path is written, each run of separators becomes one slash, and it is quoted if it has a space and does not begin with a quote |
| PathForms.NotRelated | src/DebugAdapterClient/plugin.cpp:2101-2200 | where no relative path is asked for, there is no base, or the path is relative already, that is all |
| PathForms.WrittenAnyhow | src/DebugAdapterClient/plugin.cpp:2101-2264 | two absolute directories are related by their components, however they are written |
| PathForms.BelowHome | src/DebugAdapterClient/plugin.cpp:2195-2264 | and so are two below the home directory |
| RelativePath.MakeRelative | src/DebugAdapterClient/plugin.cpp:2215-2260 | the two loops: equal first components dropped, then one step up for each component of the base |
| RelativePath.DirectoryIs | src/DebugAdapterClient/plugin.cpp:2215-2263 | for every pair of component lists the result is one `../` for each base component after the longest common prefix, then the rest, quoted if it has spaces |
| RelativePath.StepsResolve | src/DebugAdapterClient/plugin.cpp:2215-2260 | followed from the base, that leads to the original directory |
| RelativePath.DirectoryResolves | src/DebugAdapterClient/plugin.cpp:2101-2264 | the result itself does, if no quotes are put around it |
| RelativePath.StepsHaveNoSpace | src/DebugAdapterClient/plugin.cpp:2215-2260 | it has none if and only if no component after the common prefix has one |
| RelativePath.QuotedResolves | src/DebugAdapterClient/plugin.cpp:2000-2007 | with its quotes taken off by `StripQuotes` the result leads to the original directory if and only if the relative path has no quotes of its own around it |
| WatchTree.AddWatchChildByRequestSequence | src/DebugAdapterClient/DAP_Watches.cpp:864-939 | true if and only if some watch has the number; then the first such in preorder has one more child, its last, that shows the variable, and nothing else has changed; what becomes of the variable's name |
| WatchTree.AddsToFirst | src/DebugAdapterClient/DAP_Watches.cpp:864-939 | the first watch in preorder with the number gets the child as its last, and nothing else changes |
| WatchTree.NothingAdded | src/DebugAdapterClient/DAP_Watches.cpp:915-939 | without such a watch the tree is unchanged |
| WatchTree.PutLeaves | src/DebugAdapterClient/DAP_Watches.cpp:911-913 | every other watch keeps its contents and number of children |
| WatchTree.MakeChild | src/DebugAdapterClient/DAP_Watches.cpp:889-909 | the child: its name, or "anonymous", the variable's value, type and reference, and one empty placeholder, with the range set, if and only if it has parts |
| WatchTree.AddedShows | src/DebugAdapterClient/DAP_Watches.cpp:864-939 | the child added shows the variable |
| WatchTree.MarkedShows | src/DebugAdapterClient/DAP_Watches.cpp:998-1007 | a watch takes value, type and reference from a variable of its name, and the response's number |
| WatchTree.LastNamedShows | src/DebugAdapterClient/DAP_Watches.cpp:996-1007 | of several such it shows the last |
| WatchTree.OnlyPartsAdd | src/DebugAdapterClient/DAP_Watches.cpp:1009-1012 | only variables with a reference are added, to the watch itself if it has asked by then |
| WatchTree.AllInOrder | src/DebugAdapterClient/DAP_Watches.cpp:864-939 | several children added one after the other become the last children of one watch, in order |
| WatchTree.CheckVariables | src/DebugAdapterClient/DAP_Watches.cpp:996-1013 | the inner loop: a variable with the watch's name marks it, then one with a reference is added |
| WatchTree.OnVariablesCheck | src/DebugAdapterClient/DAP_Watches.cpp:994-1014 | the outer loop: one watch after the other, with the names given so far |
| WatchTree.WhereTheyGo | src/DebugAdapterClient/DAP_Watches.cpp:996-1013 | variables before the first with the watch's name go to the first watch that asked, from there on to the watch itself |
| WatchTree.UnderOneWatch | src/DebugAdapterClient/DAP_Watches.cpp:996-1013 | all come, in order, under one watch if and only if none is before the first with the watch's name, or the watch asked itself, or one below it did and none is from there on |
| WatchTree.TwoWatches | src/DebugAdapterClient/DAP_Watches.cpp:996-1013 | a response whose variables come under two watches |
| WatchTree.NameChangesLater | src/DebugAdapterClient/DAP_Watches.cpp:891-929 | the name a search gives to a variable changes what a later watch does with it, if and only if the variable had none but has parts, the earlier watch asked or has children, and the later one has no name or is called "anonymous", and not yet the variable's contents |
| WatchTree.EachOnItsOwn | src/DebugAdapterClient/DAP_Watches.cpp:994-1014 | watches with other names do with a response what each would do alone |

## Left out

- Sockets, threads, processes, dialogs, settings, logging and XML files; the network is an in-order sequence of chunks.
- Numbers that are not integers or not in 32 bits, when printed: `%f` and `%e` lose digits. The parser's value is an exact real; `double` rounding and `pow` are not modelled.
- `int` overflow of lengths and exponents, failed allocations, and the allocation hooks.
- Literals on which a pass of the parser steps over the terminator, stores more than was measured, or uses a variable without a value: the parser model says `Undefined` and no more.
- The parser builds values; the links of its items are modelled on their own in `JsonLinks`. `Json` handles and their reference counts are values.
- Text that is not ASCII in the framing: lengths are counted in characters, taken as bytes.
- Handlers that reset the client while its buffer is being processed.
- Most features of the server other than breakpoint locations, the bodies of events, and requests from the server.
- `UpdateBreakpoint`, `AddDataBreakpoint`, `OnBreakpointDataSet`, `OnProcessBreakpointData`, and loading and saving breakpoints. Nothing in the source adds temporary breakpoints, so their list is empty.
- The options that change file names on the way to the debugger: names are those of paths that use `/` already, so the name map is the identity. The order in which the files of the index are visited is a parameter.
- What happens after the sender has read the index past its end: the model records that it did and goes on without sending.
- The copies of a response's variables that `OnVariablesCheck` keeps for the editor's tooltips.
- Windows paths and 8.3 names.
- JsonParser.ParseNumber: gives the exact real, where the source rounds doubles and also keeps a truncated int.
- JsonPrinter.Print: takes trees whose numbers are 32-bit integers, because the other branches of `print_number` print with loss.
- JsonPrinter.PrintArray: takes such trees.
- JsonPrinter.PrintObject: takes such trees.
- Transport.JsonRpc.ProcessBuffer: does not model payloads on which the parser is `Undefined`, because there the source leaves its text or buffer or uses a variable without a value.
- Transport.JsonRpc.DoProcessBuffer: does not model them either.
- Framing.Conservation: leaves such payloads aside.
- Framing.DeliveredAtMost: leaves such payloads aside.
- Framing.DeliveredAtLeast: leaves such payloads aside.
- Framing.ChunkIndependence: leaves such payloads aside.
- BreakpointStore.Store.UpdateDAPSetBreakpointsByFileName: sends the file's name unchanged, because the options that rewrite it are left out.
- SessionRuns.RunKeeps: takes a server that answers each tracked request once, in order for each command, after the handshake; `NeverEarlyIff` takes responses at any time.
