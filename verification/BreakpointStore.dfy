/** The breakpoint store: its methods do to the shared objects, the list and the index
    what the functions of `Breakpoints` do to the state. */
module BreakpointStore {
  import opened Breakpoints

  class Store {
    const projectOf: string -> int
    var breakpoints: seq<Breakpoint>
    var fileIndex: Index
    var fileSystem: map<string, string>
    var temporary: seq<Breakpoint>
    var running: bool
    var stopped: bool
    var sent: seq<Sending>
    ghost var undefined: bool
    ghost var Repr: set<Breakpoint>   // every object this store has made

    ghost function Memory(): Memory
      reads this`Repr, Repr`line, Repr`id, Repr`enabled
    {
      map b | b in Repr :: Fields(b.line, b.id, b.enabled)
    }

    ghost function View(): State
      reads this, Repr
    {
      State(breakpoints, fileIndex, Memory(), running, stopped, sent, undefined)
    }

    ghost predicate Shape()
      reads this`breakpoints, this`fileIndex, this`fileSystem, this`temporary, this`Repr
    {
      && (forall b :: b in breakpoints ==> b in Repr && b.kind == Code && b.project == projectOf(b.filename))
      && Within(fileIndex, Repr)
      && (forall f :: f in fileSystem ==> fileSystem[f] == f)
      && temporary == []
    }

    constructor (projectOf: string -> int)
      ensures Shape() && this.projectOf == projectOf && View() == State([], map[], map[], false, false, [], false)
      ensures Repr == {}
    {
      this.projectOf := projectOf;
      breakpoints, fileIndex, fileSystem, temporary, sent := [], map[], map[], [], [];
      running, stopped, undefined, Repr := false, false, false, {};
    }

    /** What happens to the debugger, seen from here. */
    method SetDebuggerState(running: bool, stopped: bool)
      requires Shape()
      modifies this`running, this`stopped, this`sent
      ensures Shape() && View() == Session(old(View()), running, stopped)
    {
      if running && !this.running {
        sent := [];
      }
      this.running, this.stopped := running, stopped;
    }

    // ---------- lookups ----------

    method FindBreakpoint(project: int, filename: string, line: int) returns (i: nat)
      requires Shape() && project == projectOf(filename)
      ensures i == FirstPlace(breakpoints, Memory(), filename, line)
    {
      i := 0;
      assert breakpoints[0..] == breakpoints;
      while i < |breakpoints|
        invariant i <= |breakpoints|
        invariant i + FirstPlace(breakpoints[i..], Memory(), filename, line)
               == FirstPlace(breakpoints, Memory(), filename, line)
      {
        assert breakpoints[i..][0] == breakpoints[i] && breakpoints[i..][1..] == breakpoints[i + 1..];
        var b := breakpoints[i];
        if b.project == project && b.filename == filename && b.line == line {
          return;
        }
        i := i + 1;
      }
    }

    method GetBreakpointByID(id: int) returns (i: nat)
      requires Shape()
      ensures i == FirstId(breakpoints, Memory(), id)
    {
      i := 0;
      assert breakpoints[0..] == breakpoints;
      while i < |breakpoints|
        invariant i <= |breakpoints|
        invariant i + FirstId(breakpoints[i..], Memory(), id) == FirstId(breakpoints, Memory(), id)
      {
        assert breakpoints[i..][0] == breakpoints[i] && breakpoints[i..][1..] == breakpoints[i + 1..];
        if breakpoints[i].id == id {
          return;
        }
        i := i + 1;
      }
    }

    /** The file whose name the debugger knows as `filename`, if any. */
    method OriginalName(filename: string) returns (original: string)
      requires Shape()
      ensures original == filename
    {
      original := filename;
      if f :| f in fileSystem && fileSystem[f] == filename {
        original := f;
      }
    }

    // ---------- the index ----------

    method FindLine(bucket: seq<Breakpoint>, line: int) returns (i: nat)
      requires forall b :: b in bucket ==> b in Repr
      ensures i == FirstAt(bucket, Memory(), line)
    {
      i := 0;
      while i < |bucket| && bucket[i].line != line
        invariant i <= |bucket| && forall j :: 0 <= j < i ==> bucket[j].line != line
      {
        i := i + 1;
      }
    }

    method UpdateMapFileBreakPoints(filename: string, bp: Breakpoint, add: bool)
      requires bp in Repr && Within(fileIndex, Repr)
      modifies this`fileIndex
      ensures Within(fileIndex, Repr)
      ensures fileIndex == if add then Added(old(fileIndex), Memory(), filename, bp)
                           else Removed(old(fileIndex), Memory(), filename, bp)
    {
      ghost var memory := Memory();
      ghost var next := if add then Added(fileIndex, memory, filename, bp)
                        else Removed(fileIndex, memory, filename, bp);
      StaysWithin(fileIndex, memory, filename, bp, Repr);
      if filename in fileIndex {
        var bucket := fileIndex[filename];
        var i := FindLine(bucket, bp.line);
        if i < |bucket| {
          if !add {
            EraseEntry(filename, i);
          }
        } else if add {
          fileIndex := fileIndex[filename := bucket + [bp]];
        }
      } else if add {
        assert [bp] == [] + [bp];
        fileIndex := fileIndex[filename := [bp]];
      }
      assert fileIndex == next && Memory() == memory;
    }

    method EraseEntry(filename: string, i: nat)
      requires filename in fileIndex && i < |fileIndex[filename]|
      modifies this`fileIndex
      ensures fileIndex == if |old(fileIndex)[filename]| == 1 then old(fileIndex) - {filename}
                           else old(fileIndex)[filename := Drop(old(fileIndex)[filename], i)]
    {
      var bucket := fileIndex[filename];
      if |bucket| == 1 {
        OnlyKey(fileIndex, filename);
        fileIndex := if |fileIndex| == 1 then map[] else fileIndex - {filename};
      } else {
        fileIndex := fileIndex[filename := bucket[..i] + bucket[i + 1..]];
      }
    }

    // ---------- sending ----------

    method UpdateDAPSetBreakpointsByFileName(filename: string)
      requires Shape()
      modifies this`sent, this`fileSystem, this`undefined
      ensures Shape() && View() == Send(old(View()), filename)
    {
      if !running || !stopped {
        return;
      }
      var lines: seq<int> := [];
      if |fileIndex| > 0 {
        if filename !in fileIndex {
          undefined := true;
          return;
        }
        var bucket, i := fileIndex[filename], 0;
        while i < |bucket|
          invariant 0 <= i <= |bucket| && lines == EnabledLines(bucket[..i], Memory())
        {
          assert bucket[..i + 1][..i] == bucket[..i] && bucket[i] in bucket;
          if bucket[i].enabled {
            lines := lines + [bucket[i].line];
          }
          i := i + 1;
        }
        assert bucket[..i] == bucket;
      }
      if filename !in fileSystem {
        fileSystem := fileSystem[filename := filename];
      }
      sent := sent + [Sending(filename, lines)];
    }

    // ---------- operations ----------

    method SetIsEnabled(bp: Breakpoint, enable: bool)
      requires Shape() && bp in Repr
      modifies bp`enabled
      ensures View() == SetEnabled(old(View()), bp, enable)
    {
      bp.enabled := enable;
    }

    method SetID(bp: Breakpoint, id: int)
      requires Shape() && bp in Repr
      modifies bp`id
      ensures View() == Breakpoints.Store(old(View()), bp, At(old(Memory()), bp).(id := id))
    {
      bp.id := id;
    }

    method SwitchEnabled(bp: Breakpoint, enable: bool, filename: string)
      requires Shape() && bp in Repr
      modifies this`sent, this`fileSystem, this`undefined, bp`enabled
      ensures Shape() && View() == Switch(old(View()), bp, enable, filename) && bp.enabled == enable
    {
      if bp.enabled != enable {
        SetIsEnabled(bp, enable);
        UpdateDAPSetBreakpointsByFileName(filename);
      }
    }

    ghost method Remember(bp: Breakpoint)
      requires Shape() && bp !in Repr
      modifies this`Repr
      ensures Shape() && Repr == old(Repr) + {bp}
      ensures View() == Breakpoints.Store(old(View()), bp, Fields(bp.line, bp.id, bp.enabled))
    {
      Repr := Repr + {bp};
      assert Memory() == old(Memory())[bp := Fields(bp.line, bp.id, bp.enabled)];
    }

    /** A new object enters the index and the list. */
    method PlaceNew(bp: Breakpoint, filename: string)
      requires Shape() && bp in Repr && bp.filename == filename && bp.kind == Code && bp.project == projectOf(filename)
      modifies this`breakpoints, this`fileIndex
      ensures Shape() && breakpoints == old(breakpoints) + [bp]
      ensures View() == old(View()).(index := Added(old(fileIndex), old(Memory()), filename, bp), list := breakpoints)
    {
      UpdateMapFileBreakPoints(filename, bp, true);
      breakpoints := breakpoints + [bp];
    }

    method InsertNew(bp: Breakpoint, filename: string)
      requires Shape() && bp !in Repr && bp.filename == filename && bp.kind == Code && bp.project == projectOf(filename)
      modifies this`breakpoints, this`fileIndex, this`sent, this`fileSystem, this`undefined, this`Repr
      ensures Shape() && Repr == old(Repr) + {bp} && bp in breakpoints
      ensures View() == Insert(old(View()), bp, Fields(bp.line, bp.id, bp.enabled))
    {
      Remember(bp);
      PlaceNew(bp, filename);
      UpdateDAPSetBreakpointsByFileName(filename);
    }

    method UpdateExisting(bp: Breakpoint, enable: bool, id: int, filename: string)
      requires Shape() && bp in Repr
      modifies this`sent, this`fileSystem, this`undefined, bp
      ensures Shape() && View() == Update(old(View()), bp, enable, id, filename)
      ensures bp.enabled == enable && bp.id == if id != -1 then id else old(bp.id)
    {
      if id != -1 {
        SetID(bp, id);
      }
      SwitchEnabled(bp, enable, filename);
    }

    method UpdateOrAddByPlace(filename: string, line: int, enable: bool, id: int) returns (bp: Breakpoint)
      requires Shape()
      modifies this`breakpoints, this`fileIndex, this`sent, this`fileSystem, this`undefined, this`Repr, Repr
      ensures Shape() && Repr == old(Repr) + {bp} && bp in breakpoints
      ensures FirstPlace(old(breakpoints), old(Memory()), filename, line) == |old(breakpoints)| ==>
                fresh(bp) && bp.filename == filename
      ensures bp == TargetAt(old(View()), filename, line, bp)
      ensures View() == UpdateOrAddAt(old(View()), filename, line, enable, id, bp)
      ensures id != -1 ==> bp.id == id
      ensures if bp in old(breakpoints) then bp.enabled == enable else bp.line == line && bp.enabled
    {
      var project := projectOf(filename);
      var i := FindBreakpoint(project, filename, line);
      if i < |breakpoints| {
        bp := breakpoints[i];
        UpdateExisting(bp, enable, id, filename);
      } else {
        bp := new Breakpoint(project, filename, line, id);
        assert View() == old(View());
        InsertNew(bp, filename);
      }
    }

    /** The file's own name, and the breakpoint with the id if one is given. */
    method Lookup(filename: string, id: int) returns (name: string, i: nat)
      requires Shape()
      ensures name == filename && (i < |breakpoints| <==> Knows(View(), id))
      ensures i < |breakpoints| ==> i == FirstId(breakpoints, Memory(), id)
    {
      name := OriginalName(filename);
      i := |breakpoints|;
      if id != -1 {
        i := GetBreakpointByID(id);
      }
    }

    method UpdateOrAddBreakpoint(filename: string, line: int, enable: bool, id: int) returns (bp: Breakpoint)
      requires Shape()
      modifies this`breakpoints, this`fileIndex, this`sent, this`fileSystem, this`undefined, this`Repr, Repr
      ensures Shape() && Repr == old(Repr) + {bp} && bp in breakpoints
      ensures Found(old(View()), filename, line, id) == |old(breakpoints)| ==> fresh(bp) && bp.filename == filename
      ensures bp == Target(old(View()), filename, line, id, bp)
      ensures View() == UpdateOrAdd(old(View()), filename, line, enable, id, bp)
      ensures id != -1 ==> bp.id == id
      ensures if bp in old(breakpoints) then bp.enabled == enable else bp.line == line && bp.enabled
    {
      ghost var s := View();
      var name, i := Lookup(filename, id);
      assert View() == s;
      if i < |breakpoints| {
        bp := breakpoints[i];
        assert bp.id == id;
        SwitchEnabled(bp, enable, name);
      } else {
        bp := UpdateOrAddByPlace(name, line, enable, id);
      }
      assert View() == UpdateOrAdd(s, filename, line, enable, id, bp);
    }

    method AddBreakpoint(filename: string, line: int) returns (bp: Breakpoint)
      requires Shape()
      modifies this`breakpoints, this`fileIndex, this`sent, this`fileSystem, this`undefined, this`Repr, Repr
      ensures Shape() && Repr == old(Repr) + {bp} && bp in breakpoints
      ensures Found(old(View()), filename, line, -1) == |old(breakpoints)| ==> fresh(bp) && bp.filename == filename
      ensures bp == Target(old(View()), filename, line, -1, bp)
      ensures View() == UpdateOrAdd(old(View()), filename, line, true, -1, bp)
    {
      bp := UpdateOrAddBreakpoint(filename, line, true, -1);
    }

    method EnableBreakpoint(bp: Breakpoint, enable: bool)
      requires Shape()
      modifies this`breakpoints, this`fileIndex, this`sent, this`fileSystem, this`undefined, this`Repr, Repr
      ensures Shape() && View() == Enable(old(View()), bp, enable) && Repr == old(Repr)
    {
      if bp in breakpoints && bp.enabled != enable {
        if running {
          var _ := UpdateOrAddBreakpoint(bp.filename, bp.line, enable, bp.id);
        }
        SetIsEnabled(bp, enable);
      }
    }

    method DeleteBreakpoint(bp: Breakpoint)
      requires Shape()
      modifies this`breakpoints, this`fileIndex, this`sent, this`fileSystem, this`undefined
      ensures Shape() && View() == Delete(old(View()), bp)
    {
      ghost var s := View();
      var i := Position(breakpoints, bp);
      if i < |breakpoints| && bp.kind == Code {
        UpdateMapFileBreakPoints(bp.filename, bp, false);
        assert Memory() == s.memory;
        assert fileIndex == Removed(s.index, s.memory, bp.filename, bp);
        breakpoints := breakpoints[..i] + breakpoints[i + 1..];
        ghost var t := s.(index := Removed(s.index, s.memory, bp.filename, bp), list := Drop(s.list, i));
        assert View() == t;
        UpdateDAPSetBreakpointsByFileName(bp.filename);
      }
    }

    method DeleteAllBreakpoints() returns (ghost files: seq<string>)
      requires Shape()
      modifies this`breakpoints, this`fileIndex, this`sent, this`fileSystem
      ensures Shape() && View() == DeleteAll(old(View()), files)
      ensures running ==> Orders(files, old(fileIndex))
    {
      files := [];
      if running {
        var left := fileIndex.Keys;
        while left != {}
          invariant left <= fileIndex.Keys && forall f :: f in files <==> f in fileIndex && f !in left
          invariant forall i, j :: 0 <= i < j < |files| ==> files[i] != files[j]
          invariant sent == old(sent) + Clearings(files) && fileIndex == old(fileIndex)
        {
          var f :| f in left;
          sent := sent + [Sending(f, [])];
          assert Clearings(files + [f]) == Clearings(files) + [Sending(f, [])];
          files := files + [f];
          left := left - {f};
        }
      }
      fileIndex, fileSystem, breakpoints := map[], map[], [];
    }

    method DAPDebuggerResetData(reset: Reset)
      requires Shape()
      modifies this`breakpoints, this`fileIndex, this`fileSystem
      ensures Shape() && View() == ResetData(old(View()), reset)
    {
      if reset == All {
        breakpoints := [];
      }
      if reset == Startup || reset == All {
        fileIndex, fileSystem := map[], map[];
      }
    }

    method IndexAll(list: seq<Breakpoint>)
      requires Shape() && forall b :: b in list ==> b in Repr
      modifies this`fileIndex
      ensures Shape() && fileIndex == AddEach(old(fileIndex), Memory(), list)
    {
      ghost var memory := Memory();
      var i := 0;
      while i < |list|
        invariant 0 <= i <= |list| && Shape() && Memory() == memory
        invariant fileIndex == AddEach(old(fileIndex), memory, list[..i])
      {
        assert list[..i + 1][..i] == list[..i] && list[i] in list;
        UpdateMapFileBreakPoints(list[i].filename, list[i], true);
        i := i + 1;
      }
      assert list[..i] == list;
    }

    method SendAll() returns (ghost files: seq<string>)
      requires Shape()
      modifies this`sent, this`fileSystem, this`undefined
      ensures Shape() && View() == SendEach(old(View()), files) && Orders(files, fileIndex)
    {
      files := [];
      var left := fileIndex.Keys;
      while left != {}
        invariant Shape() && left <= fileIndex.Keys && forall f :: f in files <==> f in fileIndex && f !in left
        invariant forall i, j :: 0 <= i < j < |files| ==> files[i] != files[j]
        invariant View() == SendEach(old(View()), files)
      {
        var f :| f in left;
        UpdateDAPSetBreakpointsByFileName(f);
        assert (files + [f])[..|files|] == files;
        files := files + [f];
        left := left - {f};
      }
    }

    method IndexEverything()
      requires Shape()
      modifies this`fileIndex
      ensures Shape() && View() == old(View()).(index := AddEach(old(fileIndex), old(Memory()), breakpoints))
    {
      IndexAll(breakpoints);
      IndexAll(temporary);
    }

    method CreateStartBreakpoints() returns (ghost files: seq<string>)
      requires Shape()
      modifies this`fileIndex, this`sent, this`fileSystem, this`undefined, this`temporary
      ensures Shape() && View() == CreateStart(old(View()), files) && Orders(files, fileIndex)
    {
      IndexEverything();
      files := SendAll();
      temporary := [];
    }

    method ShiftOne(b: Breakpoint, filename: string, start: int, lines: int) returns (dies: bool)
      requires Shape() && b in breakpoints
      modifies b`line
      ensures View() == old(View()).(memory := Memory())
      ensures Memory() == old(MoveOne(Memory(), b, filename, start, lines))
      ensures dies == Dies(old(Memory()), b, filename, start, lines)
    {
      dies := false;
      if b.project == projectOf(filename) && b.filename == filename && b.line >= start {
        if lines < 0 {
          if b.line > start - lines - 1 {
            b.line := b.line + lines;
          } else {
            dies := true;
          }
        } else {
          b.line := b.line + lines;
        }
      }
    }

    method ShiftLines(filename: string, start: int, lines: int) returns (doomed: seq<Breakpoint>)
      requires Shape() && NoDup(breakpoints)
      modifies breakpoints`line
      ensures View() == old(View()).(memory := Moved(old(Memory()), breakpoints, filename, start, lines))
      ensures doomed == Doomed(old(Memory()), breakpoints, filename, start, lines)
    {
      doomed := [];
      var i := 0;
      while i < |breakpoints|
        invariant 0 <= i <= |breakpoints|
        invariant Memory() == Moved(old(Memory()), breakpoints[..i], filename, start, lines)
        invariant doomed == Doomed(old(Memory()), breakpoints[..i], filename, start, lines)
      {
        assert breakpoints[i] !in breakpoints[..i] && breakpoints[i] in breakpoints;
        MovedStep(old(Memory()), breakpoints, i, filename, start, lines);
        var dies := ShiftOne(breakpoints[i], filename, start, lines);
        if dies {
          doomed := doomed + [breakpoints[i]];
        }
        i := i + 1;
      }
      assert breakpoints[..i] == breakpoints;
    }

    method ShiftAllFileBreakpoints(editorFilename: string, start: int, lines: int) returns (done: bool)
      requires Shape() && NoDup(breakpoints)
      modifies this`breakpoints, this`fileIndex, this`sent, this`fileSystem, this`undefined, breakpoints`line
      ensures Shape() && View() == Shift(old(View()), editorFilename, start, lines) && done
    {
      var filename := OriginalName(editorFilename);
      var doomed := ShiftLines(filename, start, lines);
      ghost var s := View();
      var i := 0;
      assert doomed[0..] == doomed;
      while i < |doomed|
        invariant 0 <= i <= |doomed| && Shape()
        invariant DeleteEach(View(), doomed[i..]) == DeleteEach(s, doomed)
      {
        assert doomed[i..][0] == doomed[i] && doomed[i..][1..] == doomed[i + 1..];
        DeleteBreakpoint(doomed[i]);
        i := i + 1;
      }
      return true;
    }
  }

  lemma MovedStep(memory: Memory, list: seq<Breakpoint>, i: nat, filename: string, start: int,
      lines: int)
    requires i < |list| && list[i] !in list[..i] && list[i] in memory
    ensures var now := Moved(memory, list[..i], filename, start, lines);
            MoveOne(now, list[i], filename, start, lines) == Moved(memory, list[..i + 1], filename, start, lines)
            && Dies(now, list[i], filename, start, lines) == Dies(memory, list[i], filename, start, lines)
    ensures Doomed(memory, list[..i + 1], filename, start, lines)
         == Doomed(memory, list[..i], filename, start, lines)
            + if Dies(memory, list[i], filename, start, lines) then [list[i]] else []
  {
    assert list[..i + 1] == list[..i] + [list[i]];
    assert list[..i + 1][..i] == list[..i];
  }

  ghost predicate Within(index: Index, objects: set<Breakpoint>) {
    forall f :: f in index ==> forall b :: b in index[f] ==> b in objects
  }

  lemma StaysWithin(index: Index, memory: Memory, filename: string, bp: Breakpoint,
      objects: set<Breakpoint>)
    requires Within(index, objects) && bp in objects
    ensures Within(Added(index, memory, filename, bp), objects) && Within(Removed(index, memory, filename, bp), objects)
  {
  }

  lemma OnlyKey(index: Index, f: string)
    requires f in index
    ensures |index| == 1 ==> index - {f} == map[]
  {
    if |index| == 1 {
      assert index.Keys == {f} by {
        assert {f} <= index.Keys && |index.Keys - {f}| == 0;
      }
    }
  }
}
