/** What the operations of the breakpoint store keep. */
module BreakpointInvariants {
  import opened Breakpoints

  // ---------- invariants ----------

  /** No two breakpoints on one line of one file. */
  predicate Unique(list: seq<Breakpoint>, memory: Memory) {
    forall i, j :: 0 <= i < j < |list| ==>
      list[i].filename != list[j].filename || At(memory, list[i]).line != At(memory, list[j]).line
  }

  /** No bucket is empty or has an object twice, and each member is an object of the list
      in the bucket's file. */
  predicate Indexed(list: seq<Breakpoint>, index: Index) {
    forall f :: f in index ==>
      index[f] != [] && NoDup(index[f]) && forall b :: b in index[f] ==> b in list && b.filename == f
  }

  predicate Complete(list: seq<Breakpoint>, index: Index) {
    forall b :: b in list ==> b in Bucket(index, b.filename)
  }

  predicate Made(list: seq<Breakpoint>, memory: Memory) {
    forall b :: b in list ==> b in memory && b.kind == Code
  }

  predicate Inv(s: State) {
    Made(s.list, s.memory) && Unique(s.list, s.memory) && Indexed(s.list, s.index)
  }

  // ---------- lists ----------

  lemma DropMembers(list: seq<Breakpoint>, i: nat)
    requires NoDup(list) && i < |list|
    ensures NoDup(Drop(list, i)) && |Drop(list, i)| == |list| - 1
    ensures forall b: Breakpoint :: b in Drop(list, i) <==> b in list && b != list[i]
  {
    var rest := Drop(list, i);
    assert forall k :: 0 <= k < |rest| ==> rest[k] == list[if k < i then k else k + 1];
    forall b: Breakpoint | b in list && b != list[i] ensures b in rest {
      var k :| 0 <= k < |list| && list[k] == b;
      assert rest[if k < i then k else k - 1] == b;
    }
  }

  lemma UniqueObjects(list: seq<Breakpoint>, memory: Memory)
    requires Unique(list, memory)
    ensures NoDup(list)
    ensures forall a, b ::
              a in list && b in list && a.filename == b.filename && At(memory, a).line == At(memory, b).line ==> a == b
  {
  }

  /** In a consistent store the entry on a breakpoint's line is that breakpoint. */
  lemma OwnEntry(list: seq<Breakpoint>, index: Index, memory: Memory, bp: Breakpoint)
    requires Unique(list, memory) && Indexed(list, index) && bp in list
    ensures var bucket := Bucket(index, bp.filename);
            var i := FirstAt(bucket, memory, At(memory, bp).line);
            if i < |bucket| then bucket[i] == bp else bp !in bucket
  {
    UniqueObjects(list, memory);
  }

  lemma BucketLines(list: seq<Breakpoint>, index: Index, memory: Memory, f: string)
    requires Unique(list, memory) && Indexed(list, index) && f in index
    ensures forall i, j :: 0 <= i < j < |index[f]| ==> At(memory, index[f][i]).line != At(memory, index[f][j]).line
  {
    UniqueObjects(list, memory);
  }

  lemma AddedKeeps(list: seq<Breakpoint>, index: Index, memory: Memory, bp: Breakpoint)
    requires Unique(list, memory) && Indexed(list, index) && bp in list
    ensures var after := Added(index, memory, bp.filename, bp);
            Indexed(list, after) && bp in Bucket(after, bp.filename)
            && forall b :: b in list && b in Bucket(index, b.filename) ==> b in Bucket(after, b.filename)
  {
    OwnEntry(list, index, memory, bp);
  }

  /** Taking out a breakpoint takes out its own entry and no other. */
  lemma RemovedOwn(list: seq<Breakpoint>, index: Index, memory: Memory, bp: Breakpoint)
    requires Unique(list, memory) && Indexed(list, index) && bp in list
    ensures var after := Removed(index, memory, bp.filename, bp);
            && (forall f :: f != bp.filename ==> (f in after <==> f in index) && Bucket(after, f) == Bucket(index, f))
            && (bp.filename in after ==> after[bp.filename] != [])
            && NoDup(Bucket(after, bp.filename))
            && (forall b: Breakpoint :: b in Bucket(after, bp.filename) <==> b in Bucket(index, bp.filename) && b != bp)
  {
    var bucket := Bucket(index, bp.filename);
    var i := FirstAt(bucket, memory, At(memory, bp).line);
    OwnEntry(list, index, memory, bp);
    if i < |bucket| {
      DropMembers(bucket, i);
    }
  }

  lemma DropUnique(list: seq<Breakpoint>, memory: Memory, k: nat)
    requires Unique(list, memory)
    ensures Unique(Drop(list, k), memory)
  {
    if k < |list| {
      assert forall i :: 0 <= i < |list| - 1 ==> Drop(list, k)[i] == list[if i < k then i else i + 1];
    }
  }

  lemma RemovedKeeps(list: seq<Breakpoint>, index: Index, memory: Memory, bp: Breakpoint)
    requires Unique(list, memory) && Indexed(list, index) && bp in list
    ensures var rest, after := Drop(list, Position(list, bp)), Removed(index, memory, bp.filename, bp);
            && Unique(rest, memory) && Indexed(rest, after)
            && (Complete(list, index) ==> Complete(rest, after))
  {
    var rest, after := Drop(list, Position(list, bp)), Removed(index, memory, bp.filename, bp);
    UniqueObjects(list, memory);
    DropUnique(list, memory, Position(list, bp));
    DropMembers(list, Position(list, bp));
    RemovedOwn(list, index, memory, bp);
    TakenOut(list, index, rest, after, bp);
  }

  /** Without a breakpoint in the list, and without it in its bucket, the rest still agree. */
  lemma TakenOut(list: seq<Breakpoint>, index: Index, rest: seq<Breakpoint>, after: Index, bp: Breakpoint)
    requires Indexed(list, index)
    requires forall b: Breakpoint :: b in rest <==> b in list && b != bp
    requires forall f :: f != bp.filename ==> (f in after <==> f in index) && Bucket(after, f) == Bucket(index, f)
    requires bp.filename in after ==> after[bp.filename] != []
    requires NoDup(Bucket(after, bp.filename))
    requires forall b: Breakpoint :: b in Bucket(after, bp.filename) <==> b in Bucket(index, bp.filename) && b != bp
    ensures Indexed(rest, after) && (Complete(list, index) ==> Complete(rest, after))
  {
    forall f | f in after
      ensures after[f] != [] && NoDup(after[f]) && forall b :: b in after[f] ==> b in rest && b.filename == f
    {
      assert Bucket(after, f) == after[f];
      assert f != bp.filename ==> after[f] == index[f];
    }
    if Complete(list, index) {
      forall b | b in rest ensures b in Bucket(after, b.filename) {
        assert b in Bucket(index, b.filename);
      }
    }
  }

  lemma InsertedKeeps(list: seq<Breakpoint>, index: Index, memory: Memory, bp: Breakpoint)
    requires Unique(list, memory) && Indexed(list, index) && bp !in list
    requires FirstPlace(list, memory, bp.filename, At(memory, bp).line) == |list|
    ensures var more, after := list + [bp], Added(index, memory, bp.filename, bp);
            && Unique(more, memory) && Indexed(more, after)
            && (Complete(list, index) ==> Complete(more, after))
  {
    var more := list + [bp];
    assert Unique(more, memory);
    assert forall b :: b in list ==> b in more;
    assert Indexed(more, index);
    AddedKeeps(more, index, memory, bp);
  }

  /** Functions of a list read only its objects and what is asked of them. */
  lemma {:induction false} SameList(list: seq<Breakpoint>, a: Memory, b: Memory, filename: string, line: int)
    requires forall x :: x in list ==> At(a, x) == At(b, x)
    ensures FirstPlace(list, a, filename, line) == FirstPlace(list, b, filename, line)
  {
    if |list| > 0 {
      SameList(list[1..], a, b, filename, line);
    }
  }

  // ---------- single operations ----------

  lemma SendLeaves(s: State, filename: string)
    ensures var t := Send(s, filename); t.list == s.list && t.index == s.index && t.memory == s.memory
  {
  }

  lemma SwitchKeeps(s: State, bp: Breakpoint, enable: bool, filename: string)
    requires Inv(s) && bp in s.list
    ensures Inv(Switch(s, bp, enable, filename)) && Switch(s, bp, enable, filename).list == s.list
  {
    StoreKeeps(s, bp, At(s.memory, bp).(enabled := enable));
    SendLeaves(SetEnabled(s, bp, enable), filename);
  }

  lemma StoreKeeps(s: State, bp: Breakpoint, fields: Fields)
    requires Inv(s) && bp in s.list ==> fields.line == At(s.memory, bp).line
    requires Inv(s)
    ensures Inv(Store(s, bp, fields))
  {
  }

  lemma PlaceKeeps(s: State, bp: Breakpoint, fields: Fields)
    requires Inv(s) && bp !in s.list && bp.kind == Code
    requires FirstPlace(s.list, s.memory, bp.filename, fields.line) == |s.list|
    ensures var t := Place(s, bp, fields);
            Inv(t) && (Complete(s.list, s.index) ==> Complete(t.list, t.index)) && bp in t.list
  {
    var t := Store(s, bp, fields);
    StoreKeeps(s, bp, fields);
    SameList(s.list, s.memory, t.memory, bp.filename, fields.line);
    InsertedKeeps(s.list, s.index, t.memory, bp);
  }

  lemma UpdateKeeps(s: State, filename: string, line: int, enable: bool, id: int, bp: Breakpoint)
    requires Inv(s)
    requires Found(s, filename, line, id) == |s.list| ==> bp !in s.memory && bp.filename == filename && bp.kind == Code
    ensures var t := UpdateOrAdd(s, filename, line, enable, id, bp);
            Inv(t) && forall b :: b in s.list ==> b in t.list
  {
    var k := Found(s, filename, line, id);
    if k < |s.list| {
      var b := s.list[k];
      var t := if id != -1 then Store(s, b, At(s.memory, b).(id := id)) else s;
      StoreKeeps(s, b, At(s.memory, b).(id := id));
      SwitchKeeps(t, b, enable, filename);
      SwitchKeeps(s, b, enable, filename);
    } else {
      PlaceKeeps(s, bp, Fields(line, id, true));
    }
  }

  lemma DeleteKeeps(s: State, bp: Breakpoint)
    requires Inv(s)
    ensures Inv(Delete(s, bp))
  {
    if bp in s.list && bp.kind == Code {
      UniqueObjects(s.list, s.memory);
      DropMembers(s.list, Position(s.list, bp));
      RemovedKeeps(s.list, s.index, s.memory, bp);
    }
  }

  lemma EnableKeeps(s: State, bp: Breakpoint, enable: bool)
    requires Inv(s)
    ensures Inv(Enable(s, bp, enable))
  {
    if bp in s.list {
      var f := At(s.memory, bp);
      OwnPlace(s, bp);
      var mid := UpdateOrAdd(s, bp.filename, f.line, enable, f.id, bp);
      UpdateKeeps(s, bp.filename, f.line, enable, f.id, bp);
      StoreKeeps(mid, bp, At(mid.memory, bp).(enabled := enable));
      StoreKeeps(s, bp, At(s.memory, bp).(enabled := enable));
    }
  }

  /** A breakpoint's place finds it. */
  lemma OwnPlace(s: State, bp: Breakpoint)
    requires Inv(s) && bp in s.list
    ensures var k := FirstPlace(s.list, s.memory, bp.filename, At(s.memory, bp).line);
            k < |s.list| && s.list[k] == bp
  {
    UniqueObjects(s.list, s.memory);
  }

  lemma {:induction false} AddEachKeeps(list: seq<Breakpoint>, index: Index, memory: Memory, some: seq<Breakpoint>)
    requires Unique(list, memory) && Indexed(list, index) && forall b :: b in some ==> b in list
    ensures Indexed(list, AddEach(index, memory, some))
    ensures forall b :: b in some || (b in list && b in Bucket(index, b.filename)) ==>
              b in Bucket(AddEach(index, memory, some), b.filename)
  {
    if |some| > 0 {
      var front, last := some[..|some| - 1], some[|some| - 1];
      AddEachKeeps(list, index, memory, front);
      AddedKeeps(list, AddEach(index, memory, front), memory, last);
      assert forall b :: b in some ==> b in front || b == last;
    }
  }

  lemma {:induction false} SendEachKeeps(s: State, files: seq<string>)
    ensures SendEach(s, files) == s.(sent := SendEach(s, files).sent, undefined := SendEach(s, files).undefined)
    ensures (forall f :: f in files ==> f in s.index) ==> SendEach(s, files).undefined == s.undefined
  {
    if |files| > 0 {
      SendEachKeeps(s, files[..|files| - 1]);
    }
  }

  /** After the start every bucket holds exactly its file's breakpoints, and no lookup fails. */
  lemma StartCompletes(s: State, files: seq<string>)
    requires Inv(s)
    ensures var t := CreateStart(s, files);
            && Inv(t) && t.list == s.list && t.memory == s.memory && Complete(t.list, t.index)
            && (forall f, b: Breakpoint :: b in Bucket(t.index, f) <==> b in t.list && b.filename == f)
            && (Orders(files, t.index) ==> t.undefined == s.undefined)
  {
    AddEachKeeps(s.list, s.index, s.memory, s.list);
    SendEachKeeps(s.(index := AddEach(s.index, s.memory, s.list)), files);
  }

  // ---------- no empty bucket, whatever the list holds ----------

  predicate NoneEmpty(index: Index) {
    forall f :: f in index ==> index[f] != []
  }

  lemma {:induction false} AddEachExtends(index: Index, memory: Memory, list: seq<Breakpoint>)
    ensures var after := AddEach(index, memory, list);
            && (forall f :: f in index ==> f in after && index[f] <= after[f])
            && (NoneEmpty(index) ==> NoneEmpty(after))
  {
    if |list| > 0 {
      AddEachExtends(index, memory, list[..|list| - 1]);
    }
  }

  lemma UpdateNoneEmpty(s: State, filename: string, line: int, enable: bool, id: int, bp: Breakpoint)
    requires NoneEmpty(s.index)
    ensures NoneEmpty(UpdateOrAdd(s, filename, line, enable, id, bp).index)
  {
    var k := Found(s, filename, line, id);
    if k < |s.list| {
      var b := s.list[k];
      SendLeaves(SetEnabled(s, b, enable), filename);
      SendLeaves(SetEnabled(Store(s, b, At(s.memory, b).(id := id)), b, enable), filename);
    } else {
      SendLeaves(Place(s, bp, Fields(line, id, true)), bp.filename);
    }
  }

  lemma DeleteNoneEmpty(s: State, bp: Breakpoint)
    requires NoneEmpty(s.index)
    ensures NoneEmpty(Delete(s, bp).index)
  {
  }

  lemma {:induction false} DeleteEachNoneEmpty(s: State, doomed: seq<Breakpoint>)
    requires NoneEmpty(s.index)
    ensures NoneEmpty(DeleteEach(s, doomed).index)
    decreases doomed
  {
    if |doomed| > 0 {
      DeleteNoneEmpty(s, doomed[0]);
      DeleteEachNoneEmpty(Delete(s, doomed[0]), doomed[1..]);
    }
  }

  /** The start only adds to the index: what did not agree with the list still does not. */
  lemma StartMendsNothing(s: State, files: seq<string>)
    requires Made(s.list, s.memory) && Unique(s.list, s.memory) && NoneEmpty(s.index)
    ensures var t := CreateStart(s, files); (Inv(t) ==> Inv(s)) && (s.undefined ==> t.undefined)
  {
    var after := AddEach(s.index, s.memory, s.list);
    AddEachExtends(s.index, s.memory, s.list);
    SendEachKeeps(s.(index := after), files);
    SendEachUndefined(s.(index := after), files);
    if Indexed(s.list, after) {
      forall f | f in s.index ensures NoDup(s.index[f]) && forall b :: b in s.index[f] ==> b in after[f] {
        assert forall i :: 0 <= i < |s.index[f]| ==> s.index[f][i] == after[f][i];
      }
    }
  }

  lemma {:induction false} SendEachUndefined(s: State, files: seq<string>)
    ensures s.undefined ==> SendEach(s, files).undefined
  {
    if |files| > 0 {
      SendEachUndefined(s, files[..|files| - 1]);
    }
  }

  // ---------- the list alone, whatever the index holds ----------

  /** No id but -1 is given twice. */
  predicate DistinctIds(list: seq<Breakpoint>, memory: Memory) {
    forall a, b :: a in list && b in list && At(memory, a).id == At(memory, b).id && At(memory, a).id != -1 ==> a == b
  }

  predicate Listed(s: State) {
    Made(s.list, s.memory) && Unique(s.list, s.memory) && DistinctIds(s.list, s.memory)
  }

  /** An object may get an id that no breakpoint of the list has. */
  lemma StoreLists(s: State, bp: Breakpoint, fields: Fields)
    requires Listed(s) && (bp in s.list ==> fields.line == At(s.memory, bp).line)
    requires bp in s.list && fields.id != At(s.memory, bp).id && fields.id != -1 ==>
               FirstId(s.list, s.memory, fields.id) == |s.list|
    ensures Listed(Store(s, bp, fields))
  {
    var t := Store(s, bp, fields);
    assert forall b :: b in s.list && b != bp ==> At(t.memory, b) == At(s.memory, b);
    assert bp in s.list ==> At(t.memory, bp) == fields;
  }

  lemma SwitchLists(s: State, bp: Breakpoint, enable: bool, filename: string)
    requires Listed(s)
    ensures Listed(Switch(s, bp, enable, filename))
  {
    StoreLists(s, bp, At(s.memory, bp).(enabled := enable));
  }

  lemma InsertLists(s: State, bp: Breakpoint, fields: Fields)
    requires Listed(s) && bp !in s.list && bp.kind == Code
    requires FirstPlace(s.list, s.memory, bp.filename, fields.line) == |s.list|
    requires fields.id != -1 ==> FirstId(s.list, s.memory, fields.id) == |s.list|
    ensures Listed(Insert(s, bp, fields))
  {
    StoreLists(s, bp, fields);
    PlacedUnique(s, bp, fields);
    SendLeaves(Place(s, bp, fields), bp.filename);
  }

  lemma PlacedUnique(s: State, bp: Breakpoint, fields: Fields)
    requires Listed(s) && bp !in s.list
    requires FirstPlace(s.list, s.memory, bp.filename, fields.line) == |s.list|
    requires fields.id != -1 ==> FirstId(s.list, s.memory, fields.id) == |s.list|
    ensures var t := Place(s, bp, fields); Unique(t.list, t.memory) && DistinctIds(t.list, t.memory)
  {
    var t := Place(s, bp, fields);
    assert forall b :: b in s.list ==> At(t.memory, b) == At(s.memory, b);
    assert forall b :: b in t.list <==> b in s.list || b == bp;
  }

  lemma UpdateLists(s: State, filename: string, line: int, enable: bool, id: int, bp: Breakpoint)
    requires Listed(s)
    requires Found(s, filename, line, id) == |s.list| ==> bp !in s.memory && bp.filename == filename && bp.kind == Code
    ensures Listed(UpdateOrAdd(s, filename, line, enable, id, bp))
  {
    var k := Found(s, filename, line, id);
    if Knows(s, id) {
      SwitchLists(s, s.list[k], enable, filename);
    } else if k < |s.list| {
      var b := s.list[k];
      var t := if id != -1 then Store(s, b, At(s.memory, b).(id := id)) else s;
      StoreLists(s, b, At(s.memory, b).(id := id));
      SwitchLists(t, b, enable, filename);
    } else {
      InsertLists(s, bp, Fields(line, id, true));
    }
  }

  lemma EnableLists(s: State, bp: Breakpoint, enable: bool)
    requires Listed(s)
    ensures Listed(Enable(s, bp, enable))
  {
    if bp in s.list {
      var f := At(s.memory, bp);
      UniqueObjects(s.list, s.memory);
      var mid := if s.running then UpdateOrAdd(s, bp.filename, f.line, enable, f.id, bp) else s;
      UpdateLists(s, bp.filename, f.line, enable, f.id, bp);
      StoreLists(mid, bp, At(mid.memory, bp).(enabled := enable));
    }
  }

  lemma DeleteLists(s: State, bp: Breakpoint)
    requires Listed(s)
    ensures Listed(Delete(s, bp))
  {
    if bp in s.list && bp.kind == Code {
      var k := Position(s.list, bp);
      UniqueObjects(s.list, s.memory);
      DropMembers(s.list, k);
      DropUnique(s.list, s.memory, k);
    }
  }

  /** With distinct ids an update by a breakpoint's own id and place finds that breakpoint. */
  lemma FindsItself(s: State, bp: Breakpoint)
    requires Listed(s) && bp in s.list
    ensures var f := At(s.memory, bp);
            var k := Found(s, bp.filename, f.line, f.id);
            k < |s.list| && s.list[k] == bp
  {
    UniqueObjects(s.list, s.memory);
  }
}
