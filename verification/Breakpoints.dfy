/** The breakpoint store as a state: breakpoint objects, a list of them, an index of the
    list by file, what the objects hold, and what the debugger was sent. */
module Breakpoints {
  datatype Kind = Code | Function | Data

  class Breakpoint {
    const kind: Kind
    const project: int
    const filename: string
    var line: int
    var id: int
    var enabled: bool

    constructor (project: int, filename: string, line: int, id: int)
      ensures kind == Code && this.project == project && this.filename == filename
      ensures this.line == line && this.id == id && enabled
    {
      kind := Code;
      this.project := project;
      this.filename := filename;
      this.line := line;
      this.id := id;
      enabled := true;
    }
  }

  /** What an object holds. Objects are shared, so this is kept once for list and index. */
  datatype Fields = Fields(line: int, id: int, enabled: bool)

  type Memory = map<Breakpoint, Fields>

  type Index = map<string, seq<Breakpoint>>

  /** One `setBreakpoints` request. */
  datatype Sending = Sending(file: string, lines: seq<int>)

  /** `undefined`: the sender has looked up a file that the index does not have. */
  datatype State = State(list: seq<Breakpoint>, index: Index, memory: Memory,
                         running: bool, stopped: bool, sent: seq<Sending>, undefined: bool)

  function At(memory: Memory, b: Breakpoint): Fields {
    if b in memory then memory[b] else Fields(0, -1, false)
  }

  // ---------- lists ----------

  predicate NoDup(list: seq<Breakpoint>) {
    forall i, j :: 0 <= i < j < |list| ==> list[i] != list[j]
  }

  function Drop(list: seq<Breakpoint>, i: nat): seq<Breakpoint> {
    if i < |list| then list[..i] + list[i + 1..] else list
  }

  function Position(list: seq<Breakpoint>, bp: Breakpoint): (i: nat)
    ensures i <= |list| && (i < |list| <==> bp in list) && (i < |list| ==> list[i] == bp)
  {
    if |list| == 0 || list[0] == bp then 0 else 1 + Position(list[1..], bp)
  }

  /** The first breakpoint on the line, or the length. */
  function FirstAt(bucket: seq<Breakpoint>, memory: Memory, line: int): (i: nat)
    ensures i <= |bucket| && (i < |bucket| ==> At(memory, bucket[i]).line == line)
    ensures forall j :: 0 <= j < i ==> At(memory, bucket[j]).line != line
  {
    if |bucket| == 0 || At(memory, bucket[0]).line == line then 0 else 1 + FirstAt(bucket[1..], memory, line)
  }

  function FirstId(list: seq<Breakpoint>, memory: Memory, id: int): (i: nat)
    ensures i <= |list| && (i < |list| ==> At(memory, list[i]).id == id)
    ensures forall j :: 0 <= j < i ==> At(memory, list[j]).id != id
  {
    if |list| == 0 || At(memory, list[0]).id == id then 0 else 1 + FirstId(list[1..], memory, id)
  }

  function FirstPlace(list: seq<Breakpoint>, memory: Memory, filename: string, line: int): (i: nat)
    ensures i <= |list| && (i < |list| ==> list[i].filename == filename && At(memory, list[i]).line == line)
    ensures forall j :: 0 <= j < i ==> list[j].filename != filename || At(memory, list[j]).line != line
  {
    if |list| == 0 || (list[0].filename == filename && At(memory, list[0]).line == line) then 0
    else 1 + FirstPlace(list[1..], memory, filename, line)
  }

  /** The lines of the enabled breakpoints, in order. */
  function EnabledLines(bucket: seq<Breakpoint>, memory: Memory): seq<int> {
    if |bucket| == 0 then []
    else
      var last := At(memory, bucket[|bucket| - 1]);
      EnabledLines(bucket[..|bucket| - 1], memory) + if last.enabled then [last.line] else []
  }

  // ---------- the index ----------

  function Bucket(index: Index, filename: string): seq<Breakpoint> {
    if filename in index then index[filename] else []
  }

  /** A breakpoint is entered unless its file's bucket has its line. */
  function Added(index: Index, memory: Memory, filename: string, bp: Breakpoint): Index {
    var bucket := Bucket(index, filename);
    if FirstAt(bucket, memory, At(memory, bp).line) < |bucket| then index else index[filename := bucket + [bp]]
  }

  /** The first entry on the breakpoint's line is taken out, and the file with its last. */
  function Removed(index: Index, memory: Memory, filename: string, bp: Breakpoint): Index {
    var bucket := Bucket(index, filename);
    var i := FirstAt(bucket, memory, At(memory, bp).line);
    if i == |bucket| then index
    else if |bucket| == 1 then index - {filename}
    else index[filename := Drop(bucket, i)]
  }

  // ---------- operations ----------

  predicate Live(s: State) {
    s.running && s.stopped
  }

  /** The list for a file, read from its bucket; an empty index gives an empty list. */
  function Send(s: State, filename: string): State {
    if !Live(s) then s
    else if s.index != map[] && filename !in s.index then s.(undefined := true)
    else s.(sent := s.sent + [Sending(filename, EnabledLines(Bucket(s.index, filename), s.memory))])
  }

  function Store(s: State, bp: Breakpoint, fields: Fields): State {
    s.(memory := s.memory[bp := fields])
  }

  function SetEnabled(s: State, bp: Breakpoint, enable: bool): State {
    Store(s, bp, At(s.memory, bp).(enabled := enable))
  }

  function Switch(s: State, bp: Breakpoint, enable: bool, filename: string): State {
    if At(s.memory, bp).enabled == enable then s else Send(SetEnabled(s, bp, enable), filename)
  }

  /** A new breakpoint in the index and the list. */
  function Place(s: State, bp: Breakpoint, fields: Fields): State {
    var t := Store(s, bp, fields);
    t.(index := Added(t.index, t.memory, bp.filename, bp), list := t.list + [bp])
  }

  function Insert(s: State, bp: Breakpoint, fields: Fields): State {
    Send(Place(s, bp, fields), bp.filename)
  }

  function Update(s: State, bp: Breakpoint, enable: bool, id: int, filename: string): State {
    Switch(if id != -1 then Store(s, bp, At(s.memory, bp).(id := id)) else s, bp, enable, filename)
  }

  /** By place; `bp` is the new object, used when there is no such breakpoint yet. */
  function UpdateOrAddAt(s: State, filename: string, line: int, enable: bool, id: int, bp: Breakpoint): State {
    var k := FirstPlace(s.list, s.memory, filename, line);
    if k < |s.list| then Update(s, s.list[k], enable, id, filename) else Insert(s, bp, Fields(line, id, true))
  }

  predicate Knows(s: State, id: int) {
    id != -1 && FirstId(s.list, s.memory, id) < |s.list|
  }

  /** By id if one is given and known, otherwise by place. */
  function UpdateOrAdd(s: State, filename: string, line: int, enable: bool, id: int, bp: Breakpoint): State {
    if Knows(s, id) then Switch(s, s.list[FirstId(s.list, s.memory, id)], enable, filename)
    else UpdateOrAddAt(s, filename, line, enable, id, bp)
  }

  /** The breakpoint that is returned. */
  function TargetAt(s: State, filename: string, line: int, bp: Breakpoint): Breakpoint {
    var k := FirstPlace(s.list, s.memory, filename, line);
    if k < |s.list| then s.list[k] else bp
  }

  function Target(s: State, filename: string, line: int, id: int, bp: Breakpoint): Breakpoint {
    if Knows(s, id) then s.list[FirstId(s.list, s.memory, id)] else TargetAt(s, filename, line, bp)
  }

  /** The breakpoint that is updated, or the length. */
  function Found(s: State, filename: string, line: int, id: int): nat {
    if Knows(s, id) then FirstId(s.list, s.memory, id) else FirstPlace(s.list, s.memory, filename, line)
  }

  function Enable(s: State, bp: Breakpoint, enable: bool): State {
    if bp !in s.list || At(s.memory, bp).enabled == enable then s
    else
      var f := At(s.memory, bp);
      SetEnabled(if s.running then UpdateOrAdd(s, bp.filename, f.line, enable, f.id, bp) else s, bp, enable)
  }

  function Delete(s: State, bp: Breakpoint): State {
    if bp !in s.list || bp.kind != Code then s
    else
      Send(s.(index := Removed(s.index, s.memory, bp.filename, bp), list := Drop(s.list, Position(s.list, bp))),
           bp.filename)
  }

  function DeleteEach(s: State, doomed: seq<Breakpoint>): State
    decreases doomed
  {
    if |doomed| == 0 then s else DeleteEach(Delete(s, doomed[0]), doomed[1..])
  }

  /** `files` has each key once. */
  ghost predicate Orders(files: seq<string>, index: Index) {
    && (forall f :: f in files <==> f in index)
    && (forall i, j :: 0 <= i < j < |files| ==> files[i] != files[j])
  }

  /** Every file of the index, in the order `files`, is sent an empty list. */
  function DeleteAll(s: State, files: seq<string>): State {
    var t := s.(list := [], index := map[]);
    if s.running then t.(sent := s.sent + Clearings(files)) else t
  }

  function Clearings(files: seq<string>): seq<Sending> {
    seq(|files|, i requires 0 <= i < |files| => Sending(files[i], []))
  }

  datatype Reset = Normal | Startup | All

  function ResetData(s: State, reset: Reset): State {
    match reset
    case Normal => s
    case Startup => s.(index := map[])
    case All => s.(index := map[], list := [])
  }

  function AddEach(index: Index, memory: Memory, list: seq<Breakpoint>): Index {
    if |list| == 0 then index
    else
      var last := list[|list| - 1];
      Added(AddEach(index, memory, list[..|list| - 1]), memory, last.filename, last)
  }

  function SendEach(s: State, files: seq<string>): State {
    if |files| == 0 then s else Send(SendEach(s, files[..|files| - 1]), files[|files| - 1])
  }

  /** The index is completed from the list, and each file of it is sent, in the order `files`. */
  function CreateStart(s: State, files: seq<string>): State {
    SendEach(s.(index := AddEach(s.index, s.memory, s.list)), files)
  }

  predicate Moves(memory: Memory, b: Breakpoint, filename: string, start: int, lines: int) {
    b.filename == filename && At(memory, b).line >= start
    && (lines < 0 ==> At(memory, b).line > start - lines - 1)
  }

  predicate Dies(memory: Memory, b: Breakpoint, filename: string, start: int, lines: int) {
    b.filename == filename && lines < 0 && start <= At(memory, b).line <= start - lines - 1
  }

  function Moved(memory: Memory, list: seq<Breakpoint>, filename: string, start: int, lines: int): Memory {
    map b | b in memory ::
      if b in list && Moves(memory, b, filename, start, lines) then memory[b].(line := memory[b].line + lines)
      else memory[b]
  }

  /** One breakpoint moved. */
  function MoveOne(memory: Memory, b: Breakpoint, filename: string, start: int, lines: int): Memory {
    if Moves(memory, b, filename, start, lines) then memory[b := At(memory, b).(line := At(memory, b).line + lines)]
    else memory
  }

  function Doomed(memory: Memory, list: seq<Breakpoint>, filename: string, start: int, lines: int): seq<Breakpoint> {
    if |list| == 0 then []
    else
      var last := list[|list| - 1];
      Doomed(memory, list[..|list| - 1], filename, start, lines)
      + if Dies(memory, last, filename, start, lines) then [last] else []
  }

  /** Breakpoints below the edit move first; then those on deleted lines are deleted. */
  function Shift(s: State, filename: string, start: int, lines: int): State {
    DeleteEach(s.(memory := Moved(s.memory, s.list, filename, start, lines)),
               Doomed(s.memory, s.list, filename, start, lines))
  }

  /** What the debugger's state becomes; a session that begins has been sent nothing. */
  function Session(s: State, running: bool, stopped: bool): State {
    s.(running := running, stopped := stopped, sent := if running && !s.running then [] else s.sent)
  }
}
