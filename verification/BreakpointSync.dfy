/** What the debugger was told about breakpoints. */
module BreakpointSync {
  import opened Breakpoints
  import opened BreakpointInvariants
  import opened BreakpointShift

  datatype Told = Nothing | Lines(lines: seq<int>)

  /** The last list sent for a file. */
  function LastFor(sent: seq<Sending>, f: string): Told {
    if |sent| == 0 then Nothing
    else if sent[|sent| - 1].file == f then Lines(sent[|sent| - 1].lines)
    else LastFor(sent[..|sent| - 1], f)
  }

  /** The lines of a file's enabled breakpoints. */
  function Wanted(list: seq<Breakpoint>, memory: Memory, f: string): set<int> {
    set b | b in list && b.filename == f && At(memory, b).enabled :: At(memory, b).line
  }

  /** The last list sent for the file has exactly these lines, each once. */
  ghost predicate Tells(sent: seq<Sending>, f: string, wanted: set<int>) {
    match LastFor(sent, f)
    case Nothing => wanted == {}
    case Lines(lines) => |lines| == |wanted| && forall n :: n in lines <==> n in wanted
  }

  ghost predicate Synced(sent: seq<Sending>, list: seq<Breakpoint>, memory: Memory) {
    forall f :: Tells(sent, f, Wanted(list, memory, f))
  }

  /** The session takes lists, the index holds all breakpoints, and the debugger knows
      every file's enabled breakpoints. */
  ghost predicate InStep(s: State) {
    Live(s) && Complete(s.list, s.index) && Synced(s.sent, s.list, s.memory)
  }

  predicate CanSend(index: Index, f: string) {
    index != map[] ==> f in index
  }

  // ---------- sending ----------

  lemma LastForAppend(sent: seq<Sending>, s: Sending, f: string)
    ensures LastFor(sent + [s], f) == if s.file == f then Lines(s.lines) else LastFor(sent, f)
  {
    assert (sent + [s])[..|sent|] == sent;
  }

  lemma TellsOne(sent: seq<Sending>, f: string, a: set<int>, b: set<int>)
    requires Tells(sent, f, a) && Tells(sent, f, b)
    ensures a == b
  {
    assert forall n :: n in a <==> n in b;
  }

  function EnabledSet(bucket: seq<Breakpoint>, memory: Memory): set<int> {
    set b | b in bucket && At(memory, b).enabled :: At(memory, b).line
  }

  lemma EnabledSetSplits(bucket: seq<Breakpoint>, memory: Memory)
    requires |bucket| > 0
    ensures var last := At(memory, bucket[|bucket| - 1]);
            EnabledSet(bucket, memory)
            == EnabledSet(bucket[..|bucket| - 1], memory) + if last.enabled then {last.line} else {}
  {
    assert forall x :: x in bucket <==> x in bucket[..|bucket| - 1] || x == bucket[|bucket| - 1];
  }

  lemma {:induction false} EnabledLinesAre(bucket: seq<Breakpoint>, memory: Memory)
    requires forall i, j :: 0 <= i < j < |bucket| ==> At(memory, bucket[i]).line != At(memory, bucket[j]).line
    ensures |EnabledLines(bucket, memory)| == |EnabledSet(bucket, memory)|
    ensures forall n :: n in EnabledLines(bucket, memory) <==> n in EnabledSet(bucket, memory)
  {
    if |bucket| > 0 {
      var front := bucket[..|bucket| - 1];
      EnabledLinesAre(front, memory);
      EnabledSetSplits(bucket, memory);
      assert At(memory, bucket[|bucket| - 1]).line !in EnabledSet(front, memory);
    }
  }

  /** The list made from a complete bucket is exactly right. */
  lemma BucketTells(sent: seq<Sending>, list: seq<Breakpoint>, index: Index, memory: Memory, f: string)
    requires Unique(list, memory) && Indexed(list, index)
    requires forall b :: b in list && b.filename == f ==> b in Bucket(index, f)
    ensures Tells(sent + [Sending(f, EnabledLines(Bucket(index, f), memory))], f, Wanted(list, memory, f))
  {
    if f in index {
      BucketLines(list, index, memory, f);
    }
    var bucket := Bucket(index, f);
    LastForAppend(sent, Sending(f, EnabledLines(bucket, memory)), f);
    assert Wanted(list, memory, f) == EnabledSet(bucket, memory);
    EnabledLinesAre(bucket, memory);
  }

  /** Sending one file's list keeps the debugger informed, if only that file changed. */
  lemma SendSyncs(s: State, f: string)
    requires Inv(s) && Live(s) && Complete(s.list, s.index) && CanSend(s.index, f)
    requires forall g :: g != f ==> Tells(s.sent, g, Wanted(s.list, s.memory, g))
    ensures InStep(Send(s, f)) && Send(s, f).undefined == s.undefined
  {
    var t := Send(s, f);
    BucketTells(s.sent, s.list, s.index, s.memory, f);
    forall g ensures Tells(t.sent, g, Wanted(s.list, s.memory, g)) {
      LastForAppend(s.sent, t.sent[|s.sent|], g);
    }
  }

  lemma SameWanted(list: seq<Breakpoint>, a: Memory, b: Memory, f: string)
    requires forall x :: x in list && x.filename == f ==> At(a, x) == At(b, x)
    ensures Wanted(list, a, f) == Wanted(list, b, f)
  {
  }

  // ---------- operations ----------

  lemma PlacedWanted(s: State, bp: Breakpoint, fields: Fields, g: string)
    requires bp !in s.list && g != bp.filename
    ensures var t := Place(s, bp, fields); Wanted(t.list, t.memory, g) == Wanted(s.list, s.memory, g)
  {
    var t := Place(s, bp, fields);
    assert forall b :: b in t.list <==> b in s.list || b == bp;
    assert forall b :: b in s.list ==> At(t.memory, b) == At(s.memory, b);
  }

  /** A new breakpoint keeps the debugger informed. */
  lemma InsertInStep(s: State, bp: Breakpoint, fields: Fields)
    requires Inv(s) && InStep(s) && bp !in s.list && bp.kind == Code
    requires FirstPlace(s.list, s.memory, bp.filename, fields.line) == |s.list|
    ensures InStep(Insert(s, bp, fields)) && Insert(s, bp, fields).undefined == s.undefined
  {
    var t := Place(s, bp, fields);
    PlaceKeeps(s, bp, fields);
    forall g | g != bp.filename ensures Tells(t.sent, g, Wanted(t.list, t.memory, g)) {
      PlacedWanted(s, bp, fields, g);
    }
    assert bp in Bucket(t.index, bp.filename);
    SendSyncs(t, bp.filename);
  }

  /** Switching a breakpoint makes the last list of its file wrong, and no other. */
  lemma SwitchShows(s: State, bp: Breakpoint, enable: bool)
    requires Inv(s) && bp in s.list && At(s.memory, bp).enabled != enable
    ensures var t := SetEnabled(s, bp, enable);
            && (forall g :: g != bp.filename ==> Wanted(t.list, t.memory, g) == Wanted(s.list, s.memory, g))
            && (Tells(s.sent, bp.filename, Wanted(s.list, s.memory, bp.filename)) ==>
                  !Tells(s.sent, bp.filename, Wanted(t.list, t.memory, bp.filename)))
  {
    var t, f := SetEnabled(s, bp, enable), bp.filename;
    forall g | g != f ensures Wanted(t.list, t.memory, g) == Wanted(s.list, s.memory, g) {
      SameWanted(s.list, t.memory, s.memory, g);
    }
    UniqueObjects(s.list, s.memory);
    var line := At(s.memory, bp).line;
    assert line in Wanted(t.list, t.memory, f) <==> enable;
    assert line in Wanted(s.list, s.memory, f) <==> !enable;
    if Tells(s.sent, f, Wanted(s.list, s.memory, f)) && Tells(s.sent, f, Wanted(t.list, t.memory, f)) {
      TellsOne(s.sent, f, Wanted(s.list, s.memory, f), Wanted(t.list, t.memory, f));
    }
  }

  /** A change with the file's list sent keeps the debugger informed; with another file's
      list sent it does not. */
  lemma SwitchInStep(s: State, bp: Breakpoint, enable: bool, f: string)
    requires Inv(s) && InStep(s) && bp in s.list && At(s.memory, bp).enabled != enable && CanSend(s.index, f)
    ensures var t := Switch(s, bp, enable, f);
            t.undefined == s.undefined && Complete(t.list, t.index) && Live(t) && (InStep(t) <==> bp.filename == f)
  {
    var t := SetEnabled(s, bp, enable);
    SwitchKeeps(s, bp, enable, f);
    SwitchShows(s, bp, enable);
    if bp.filename == f {
      SendSyncs(t, f);
    } else {
      LastForAppend(s.sent, Send(t, f).sent[|s.sent|], bp.filename);
      assert !Tells(Send(t, f).sent, bp.filename, Wanted(t.list, t.memory, bp.filename));
    }
  }

  /** Where the file's list is sent, an update keeps the debugger informed if and only if
      it changed nothing or found a breakpoint of that file. */
  lemma UpdateInStep(s: State, f: string, line: int, enable: bool, id: int, bp: Breakpoint)
    requires Inv(s) && InStep(s)
    requires Found(s, f, line, id) == |s.list| ==> bp !in s.memory && bp.filename == f && bp.kind == Code
    ensures var t, k := UpdateOrAdd(s, f, line, enable, id, bp), Found(s, f, line, id);
            if k == |s.list| then InStep(t) && t.undefined == s.undefined
            else
              var b := s.list[k];
              At(s.memory, b).enabled == enable || CanSend(s.index, f) ==>
                (InStep(t) <==> At(s.memory, b).enabled == enable || b.filename == f) && t.undefined == s.undefined
  {
    var k := Found(s, f, line, id);
    if k == |s.list| {
      InsertInStep(s, bp, Fields(line, id, true));
    } else {
      var b := s.list[k];
      UpdatedInStep(s, b, enable, f);
      if !Knows(s, id) && id != -1 {
        RenumberInStep(s, b, id);
        UpdatedInStep(Store(s, b, At(s.memory, b).(id := id)), b, enable, f);
      }
    }
  }

  lemma RenumberInStep(s: State, b: Breakpoint, id: int)
    requires Inv(s) && InStep(s) && b in s.list
    ensures var t := Store(s, b, At(s.memory, b).(id := id)); Inv(t) && InStep(t)
  {
    var t := Store(s, b, At(s.memory, b).(id := id));
    StoreKeeps(s, b, At(s.memory, b).(id := id));
    forall g ensures Tells(t.sent, g, Wanted(t.list, t.memory, g)) {
      assert Wanted(t.list, t.memory, g) == Wanted(s.list, s.memory, g);
    }
  }

  lemma UpdatedInStep(s: State, b: Breakpoint, enable: bool, f: string)
    requires Inv(s) && InStep(s) && b in s.list
    ensures At(s.memory, b).enabled == enable || CanSend(s.index, f) ==>
              var t := Switch(s, b, enable, f);
              (InStep(t) <==> At(s.memory, b).enabled == enable || b.filename == f) && t.undefined == s.undefined
  {
    if At(s.memory, b).enabled != enable && CanSend(s.index, f) {
      SwitchInStep(s, b, enable, f);
    }
  }

  /** Enabling and disabling keeps the debugger informed. */
  lemma EnableInStep(s: State, bp: Breakpoint, enable: bool)
    requires Inv(s) && DistinctIds(s.list, s.memory) && InStep(s)
    ensures var t := Enable(s, bp, enable); InStep(t) && t.undefined == s.undefined
  {
    if bp in s.list && At(s.memory, bp).enabled != enable {
      var f := At(s.memory, bp);
      FindsItself(s, bp);
      assert bp in Bucket(s.index, bp.filename);
      UpdateInStep(s, bp.filename, f.line, enable, f.id, bp);
      RestoreSame(UpdateOrAdd(s, bp.filename, f.line, enable, f.id, bp), bp, enable);
    }
  }

  lemma RestoreSame(s: State, bp: Breakpoint, enable: bool)
    requires bp in s.memory && At(s.memory, bp).enabled == enable
    ensures SetEnabled(s, bp, enable) == s
  {
  }

  /** The store after a deletion, before its list is sent. */
  function Without(s: State, bp: Breakpoint): State {
    s.(index := Removed(s.index, s.memory, bp.filename, bp), list := Drop(s.list, Position(s.list, bp)))
  }

  lemma WithoutKeeps(s: State, bp: Breakpoint)
    requires Inv(s) && Complete(s.list, s.index) && bp in s.list
    ensures var t := Without(s, bp);
            Inv(t) && Complete(t.list, t.index)
            && forall g :: g != bp.filename ==> Wanted(t.list, t.memory, g) == Wanted(s.list, s.memory, g)
  {
    var t := Without(s, bp);
    UniqueObjects(s.list, s.memory);
    DropMembers(s.list, Position(s.list, bp));
    RemovedKeeps(s.list, s.index, s.memory, bp);
    forall g | g != bp.filename ensures Wanted(t.list, t.memory, g) == Wanted(s.list, s.memory, g) {
    }
  }

  /** After a deletion the debugger is informed, unless the file has lost its last
      breakpoint while others have some: then the sender reads past the end of the index. */
  lemma DeleteInStep(s: State, bp: Breakpoint)
    requires Inv(s) && InStep(s) && bp in s.list
    ensures var t := Delete(s, bp);
            var kept := |t.list| == 0 || exists b :: b in t.list && b.filename == bp.filename;
            (kept ==> InStep(t) && t.undefined == s.undefined) && (!kept ==> t.undefined && t.sent == s.sent)
  {
    var t := Without(s, bp);
    WithoutKeeps(s, bp);
    FilesOfIndex(t);
    assert Delete(s, bp) == Send(t, bp.filename);
    if CanSend(t.index, bp.filename) {
      SendSyncs(t, bp.filename);
    }
  }

  /** A complete index has the files of the list. */
  lemma FilesOfIndex(s: State)
    requires Indexed(s.list, s.index) && Complete(s.list, s.index)
    ensures forall f :: f in s.index <==> exists b :: b in s.list && b.filename == f
    ensures s.index == map[] <==> |s.list| == 0
  {
    forall f | f in s.index ensures exists b :: b in s.list && b.filename == f {
      assert s.index[f][0] in s.list;
    }
    if |s.list| > 0 {
      assert s.list[0] in Bucket(s.index, s.list[0].filename);
    }
    if s.index != map[] {
      var f :| f in s.index;
      assert s.index[f][0] in s.list;
    }
  }

  /** The lists sent at the start inform the debugger of every breakpoint, if and only if
      it had not been told of breakpoints in files that have none. */
  lemma StartInStep(s: State, files: seq<string>)
    requires Inv(s) && Live(s) && Orders(files, CreateStart(s, files).index)
    ensures InStep(CreateStart(s, files))
            <==> forall f :: (forall b :: b in s.list ==> b.filename != f) ==> Tells(s.sent, f, {})
  {
    var t := s.(index := AddEach(s.index, s.memory, s.list));
    var u := CreateStart(s, files);
    StartCompletes(s, files);
    SendEachKeeps(t, files);
    FilesOfIndex(t);
    forall f ensures Tells(u.sent, f, Wanted(u.list, u.memory, f))
                     <==> (forall b :: b in s.list ==> b.filename != f) ==> Tells(s.sent, f, {}) {
      SendEachTells(t, files, f);
      if f !in files {
        assert Wanted(t.list, t.memory, f) == {};
      }
    }
  }

  lemma {:induction false} SendEachTells(s: State, files: seq<string>, f: string)
    requires Inv(s) && Live(s) && Complete(s.list, s.index) && forall g :: g in files ==> g in s.index
    ensures var t := SendEach(s, files);
            if f in files then Tells(t.sent, f, Wanted(s.list, s.memory, f))
            else LastFor(t.sent, f) == LastFor(s.sent, f)
  {
    if |files| > 0 {
      var front, last := files[..|files| - 1], files[|files| - 1];
      SendEachTells(s, front, f);
      SendEachKeeps(s, front);
      var t := SendEach(s, front);
      BucketTells(t.sent, s.list, s.index, s.memory, last);
      LastForAppend(t.sent, Sending(last, EnabledLines(Bucket(s.index, last), s.memory)), f);
      assert forall g :: g in files <==> g in front || g == last;
    }
  }

  /** Deleting everything keeps the debugger informed. */
  lemma DeleteAllInStep(s: State, files: seq<string>)
    requires Inv(s) && InStep(s) && Orders(files, s.index)
    ensures InStep(DeleteAll(s, files))
  {
    FilesOfIndex(s);
    var t := DeleteAll(s, files);
    forall f ensures Tells(t.sent, f, Wanted(t.list, t.memory, f)) {
      ClearingsTell(s.sent, files, f);
      assert Wanted(t.list, t.memory, f) == {};
      if f !in files {
        assert Wanted(s.list, s.memory, f) == {};
      }
    }
  }

  lemma {:induction false} ClearingsTell(sent: seq<Sending>, files: seq<string>, f: string)
    ensures LastFor(sent + Clearings(files), f) == if f in files then Lines([]) else LastFor(sent, f)
  {
    if |files| == 0 {
      assert sent + Clearings(files) == sent;
    } else {
      var front, last := files[..|files| - 1], files[|files| - 1];
      ClearingsTell(sent, front, f);
      LastForAppend(sent + Clearings(front), Sending(last, []), f);
      assert sent + Clearings(files) == (sent + Clearings(front)) + [Sending(last, [])];
      assert files == front + [last];
    }
  }

  // ---------- shifts ----------

  /** An enabled breakpoint of the file moves. */
  predicate EnabledMoves(s: State, f: string, start: int, lines: int) {
    exists b :: b in s.list && Moves(s.memory, b, f, start, lines) && At(s.memory, b).enabled
  }

  predicate SomeDie(s: State, f: string, start: int, lines: int) {
    exists b :: b in s.list && Dies(s.memory, b, f, start, lines)
  }

  /** The lowest enabled breakpoint that moves. */
  lemma {:induction false} LowestMoving(memory: Memory, list: seq<Breakpoint>, f: string, start: int, lines: int)
      returns (b: Breakpoint)
    requires exists x :: x in list && Moves(memory, x, f, start, lines) && At(memory, x).enabled
    ensures b in list && Moves(memory, b, f, start, lines) && At(memory, b).enabled
    ensures forall x :: x in list && Moves(memory, x, f, start, lines) && At(memory, x).enabled ==>
              At(memory, x).line <= At(memory, b).line
  {
    var first, rest := list[0], list[1..];
    assert forall x :: x in list <==> x == first || x in rest;
    if exists x :: x in rest && Moves(memory, x, f, start, lines) && At(memory, x).enabled {
      b := LowestMoving(memory, rest, f, start, lines);
      if Moves(memory, first, f, start, lines) && At(memory, first).enabled
         && At(memory, first).line > At(memory, b).line {
        b := first;
      }
    } else {
      b := first;
    }
  }

  lemma {:induction false} NoneDoomed(memory: Memory, list: seq<Breakpoint>, f: string, start: int, lines: int)
    requires forall b :: b in list ==> !Dies(memory, b, f, start, lines)
    ensures Doomed(memory, list, f, start, lines) == []
  {
    if |list| > 0 {
      NoneDoomed(memory, list[..|list| - 1], f, start, lines);
    }
  }

  lemma MovedWanted(s: State, f: string, start: int, lines: int)
    requires Inv(s) && !SomeDie(s, f, start, lines)
    ensures var t := Shift(s, f, start, lines);
            && t == s.(memory := t.memory)
            && (forall g :: g != f ==> Wanted(t.list, t.memory, g) == Wanted(s.list, s.memory, g))
            && (Wanted(t.list, t.memory, f) == Wanted(s.list, s.memory, f)
                <==> lines == 0 || !EnabledMoves(s, f, start, lines))
  {
    var t := Shift(s, f, start, lines);
    NoneDoomed(s.memory, s.list, f, start, lines);
    assert t == s.(memory := t.memory);
    forall g | g != f ensures Wanted(t.list, t.memory, g) == Wanted(s.list, s.memory, g) {
      SameWanted(s.list, t.memory, s.memory, g);
    }
    if lines == 0 || !EnabledMoves(s, f, start, lines) {
      assert forall b :: b in s.list && At(s.memory, b).enabled ==> At(t.memory, b) == At(s.memory, b);
      assert forall b :: b in s.list ==> At(t.memory, b).enabled == At(s.memory, b).enabled;
    } else {
      WantedDiffers(s, f, start, lines);
    }
  }

  lemma WantedDiffers(s: State, f: string, start: int, lines: int)
    requires Inv(s) && !SomeDie(s, f, start, lines) && lines != 0 && EnabledMoves(s, f, start, lines)
    ensures var memory := Moved(s.memory, s.list, f, start, lines);
            Wanted(s.list, memory, f) != Wanted(s.list, s.memory, f)
  {
    var memory := Moved(s.memory, s.list, f, start, lines);
    var b := LowestMoving(s.memory, s.list, f, start, lines);
    var n := At(s.memory, b).line;
    assert At(memory, b).line == n + lines && At(memory, b).enabled;
    if lines > 0 {
      assert n + lines in Wanted(s.list, memory, f) && n + lines !in Wanted(s.list, s.memory, f);
    } else {
      assert n in Wanted(s.list, s.memory, f) && n !in Wanted(s.list, memory, f);
    }
  }

  /** What the deletions on the way have sent. */
  lemma {:induction false} DeleteEachSends(s: State, doomed: seq<Breakpoint>, f: string)
    requires Live(s) && NoDup(s.list) && NoDup(doomed) && |doomed| > 0
    requires forall b :: b in doomed ==> b in s.list && b.kind == Code && b.filename == f
    requires f in s.index ==> s.index[f] != []
    requires CanSend(DeleteEach(s, doomed).index, f)
    ensures var t := DeleteEach(s, doomed);
            && Live(t) && LastFor(t.sent, f) == Lines(EnabledLines(Bucket(t.index, f), t.memory))
            && (forall g :: g != f ==> LastFor(t.sent, g) == LastFor(s.sent, g))
    decreases doomed
  {
    var mid := Delete(s, doomed[0]);
    DeleteOne(s, doomed, f);
    DeleteSends(s, doomed[0]);
    if |doomed| > 1 {
      DeleteEachSends(mid, doomed[1..], f);
    } else {
      assert doomed[1..] == [];
    }
  }

  lemma DeleteSends(s: State, d: Breakpoint)
    requires Live(s) && d in s.list && d.kind == Code
    ensures var t := Delete(s, d);
            && Live(t) && t.memory == s.memory
            && (CanSend(t.index, d.filename) ==>
                  LastFor(t.sent, d.filename) == Lines(EnabledLines(Bucket(t.index, d.filename), t.memory)))
            && (forall g :: g != d.filename ==> LastFor(t.sent, g) == LastFor(s.sent, g))
  {
    var t := Delete(s, d);
    var sending := Sending(d.filename, EnabledLines(Bucket(t.index, d.filename), s.memory));
    forall g
      ensures LastFor(s.sent + [sending], g) == if g == d.filename then Lines(sending.lines) else LastFor(s.sent, g)
    {
      LastForAppend(s.sent, sending, g);
    }
  }

  /** All breakpoints of the file are deleted, and another file has some. */
  predicate LastDie(s: State, f: string, start: int, lines: int) {
    && SomeDie(s, f, start, lines)
    && (forall b :: b in s.list && b.filename == f ==> Dies(s.memory, b, f, start, lines))
    && exists b :: b in s.list && b.filename != f
  }

  /** A shift that deletes breakpoints sends the file's list again, or looks it up in vain
      if it deletes the last of them; one that does not sends nothing. So where sharing is
      kept the debugger stays informed if and only if a breakpoint is deleted or no enabled
      one moves. */
  lemma ShiftInStep(s: State, f: string, start: int, lines: int)
    requires Inv(s) && InStep(s) && !Overtakes(Bucket(s.index, f), s.memory, f, start, lines)
    ensures var t := Shift(s, f, start, lines);
            if LastDie(s, f, start, lines) then t.undefined
            else
              t.undefined == s.undefined
              && (InStep(t) <==> SomeDie(s, f, start, lines) || lines == 0 || !EnabledMoves(s, f, start, lines))
  {
    var t := Shift(s, f, start, lines);
    ShiftUndefined(s, f, start, lines);
    LosesAll(s, f, start, lines);
    if !SomeDie(s, f, start, lines) {
      MovedWanted(s, f, start, lines);
      MovedInStep(s, f, start, lines);
    } else if !LastDie(s, f, start, lines) {
      GoneIff(s, f, start, lines);
      ShiftResends(s, f, start, lines);
    }
  }

  lemma MovedInStep(s: State, f: string, start: int, lines: int)
    requires Inv(s) && InStep(s) && !SomeDie(s, f, start, lines)
    ensures InStep(Shift(s, f, start, lines)) <==> lines == 0 || !EnabledMoves(s, f, start, lines)
  {
    var t := Shift(s, f, start, lines);
    MovedWanted(s, f, start, lines);
    assert Tells(s.sent, f, Wanted(s.list, s.memory, f));
    if Tells(t.sent, f, Wanted(t.list, t.memory, f)) {
      TellsOne(s.sent, f, Wanted(t.list, t.memory, f), Wanted(s.list, s.memory, f));
      forall g ensures Tells(t.sent, g, Wanted(t.list, t.memory, g)) {
        assert Tells(s.sent, g, Wanted(s.list, s.memory, g));
      }
    }
  }

  lemma ShiftResends(s: State, f: string, start: int, lines: int)
    requires Inv(s) && InStep(s) && !Overtakes(Bucket(s.index, f), s.memory, f, start, lines)
    requires SomeDie(s, f, start, lines) && !FileGone(Shift(s, f, start, lines).index, f)
    ensures InStep(Shift(s, f, start, lines))
  {
    var t := Shift(s, f, start, lines);
    ConsistentIff(s, f, start, lines);
    CompleteStays(s, f, start, lines);
    ShiftSends(s, f, start, lines);
    LastTells(t, f);
    forall g ensures Tells(t.sent, g, Wanted(t.list, t.memory, g)) {
      if g != f {
        ShiftedOthers(s, f, start, lines, g);
        assert Tells(s.sent, g, Wanted(s.list, s.memory, g));
      }
    }
  }

  lemma LastTells(t: State, f: string)
    requires Inv(t) && Complete(t.list, t.index)
    requires LastFor(t.sent, f) == Lines(EnabledLines(Bucket(t.index, f), t.memory))
    ensures Tells(t.sent, f, Wanted(t.list, t.memory, f))
  {
    BucketTells([], t.list, t.index, t.memory, f);
    LastForAppend([], Sending(f, EnabledLines(Bucket(t.index, f), t.memory)), f);
  }

  lemma ShiftSends(s: State, f: string, start: int, lines: int)
    requires Inv(s) && Live(s) && SomeDie(s, f, start, lines) && !FileGone(Shift(s, f, start, lines).index, f)
    ensures var t := Shift(s, f, start, lines);
            && Live(t) && LastFor(t.sent, f) == Lines(EnabledLines(Bucket(t.index, f), t.memory))
            && (forall g :: g != f ==> LastFor(t.sent, g) == LastFor(s.sent, g))
  {
    var memory, doomed := Moved(s.memory, s.list, f, start, lines), Doomed(s.memory, s.list, f, start, lines);
    UniqueObjects(s.list, s.memory);
    DoomedAre(s.memory, s.list, f, start, lines);
    DeleteEachSends(s.(memory := memory), doomed, f);
  }

  lemma ShiftedOthers(s: State, f: string, start: int, lines: int, g: string)
    requires Inv(s) && g != f
    ensures var t := Shift(s, f, start, lines); Wanted(t.list, t.memory, g) == Wanted(s.list, s.memory, g)
  {
    ShiftList(s, f, start, lines);
    var t := Shift(s, f, start, lines);
    assert forall b :: b in s.list && b.filename == g ==> b in t.list && At(t.memory, b) == At(s.memory, b);
  }
}
