/** What each operation does to the breakpoints, one by one, and to what has been sent. */
module BreakpointEffects {
  import opened Breakpoints
  import opened BreakpointInvariants
  import opened BreakpointShift
  import opened BreakpointSync

  // ---------- sending ----------

  /** An entry's line is in the list made for its bucket exactly if it is enabled. */
  lemma OneEnabledLine(b: Breakpoint, memory: Memory)
    ensures EnabledLines([b], memory) == if At(memory, b).enabled then [At(memory, b).line] else []
  {
    assert [b][..0] == [];
    assert EnabledLines([], memory) == [];
  }

  lemma EnabledLinesSplit(bucket: seq<Breakpoint>, memory: Memory)
    requires |bucket| > 0
    ensures EnabledLines(bucket, memory)
         == EnabledLines(bucket[..|bucket| - 1], memory) + EnabledLines([bucket[|bucket| - 1]], memory)
  {
    OneEnabledLine(bucket[|bucket| - 1], memory);
  }

  /** And the lines are in the order of the entries. */
  lemma {:induction false} EnabledLinesInOrder(a: seq<Breakpoint>, b: seq<Breakpoint>, memory: Memory)
    ensures EnabledLines(a + b, memory) == EnabledLines(a, memory) + EnabledLines(b, memory)
  {
    if |b| == 0 {
      assert a + b == a;
    } else {
      var front, all := b[..|b| - 1], a + b;
      EnabledLinesInOrder(a, front, memory);
      EnabledLinesSplit(b, memory);
      EnabledLinesSplit(all, memory);
      assert all[..|all| - 1] == a + front && all[|all| - 1] == b[|b| - 1];
    }
  }

  /** Nothing is sent outside a session that is stopped, and one list at most inside. */
  lemma SendsOne(s: State, f: string)
    ensures var t := Send(s, f);
            && (!s.running || !s.stopped ==> t == s)
            && s.sent <= t.sent && |t.sent| <= |s.sent| + 1
            && (|t.sent| == |s.sent| + 1 ==> t.sent[|s.sent|].file == f)
            && (s.running && s.stopped && |t.sent| == |s.sent| ==> t.undefined)
  {
  }

  // ---------- updating ----------

  predicate HasId(s: State, id: int) {
    exists b :: b in s.list && At(s.memory, b).id == id
  }

  predicate HasPlace(s: State, filename: string, line: int) {
    exists b :: b in s.list && b.filename == filename && At(s.memory, b).line == line
  }

  /** The breakpoint with the id, if one is given and known, is switched and nothing else;
      otherwise the one at the place gets the id, if one is given, and is switched; and
      otherwise there is a new one at the place, with the id, enabled. No other breakpoint
      changes, and a given id is then that of the breakpoint returned. */
  lemma UpdateEffect(s: State, filename: string, line: int, enable: bool, id: int, bp: Breakpoint)
    requires Listed(s)
    requires Found(s, filename, line, id) == |s.list| ==> bp !in s.memory && bp.filename == filename && bp.kind == Code
    ensures var t, b := UpdateOrAdd(s, filename, line, enable, id, bp), Target(s, filename, line, id, bp);
            && (id != -1 && HasId(s, id) ==>
                  && b in s.list && At(s.memory, b).id == id
                  && At(t.memory, b) == Fields(At(s.memory, b).line, id, enable))
            && (!(id != -1 && HasId(s, id)) && HasPlace(s, filename, line) ==>
                  && b in s.list && b.filename == filename && At(s.memory, b).line == line
                  && At(t.memory, b) == Fields(line, if id != -1 then id else At(s.memory, b).id, enable))
            && (!(id != -1 && HasId(s, id)) && !HasPlace(s, filename, line) ==>
                  && b == bp && b !in s.list && t.list == s.list + [b] && At(t.memory, b) == Fields(line, id, true))
            && (b in s.list ==> t.list == s.list && t.index == s.index)
            && (forall x :: x != b ==> At(t.memory, x) == At(s.memory, x))
            && (id != -1 ==> FirstId(t.list, t.memory, id) < |t.list| && t.list[FirstId(t.list, t.memory, id)] == b)
  {
    if id != -1 && HasId(s, id) {
      var x :| x in s.list && At(s.memory, x).id == id;
      assert Knows(s, id);
      SwitchEffect(s, s.list[FirstId(s.list, s.memory, id)], enable, filename);
    } else if HasPlace(s, filename, line) {
      var b := s.list[FirstPlace(s.list, s.memory, filename, line)];
      RenumberEffect(s, b, id);
      SwitchEffect(if id != -1 then Store(s, b, At(s.memory, b).(id := id)) else s, b, enable, filename);
    } else {
      InsertEffect(s, bp, Fields(line, id, true));
    }
    var t, b := UpdateOrAdd(s, filename, line, enable, id, bp), Target(s, filename, line, id, bp);
    UpdateLists(s, filename, line, enable, id, bp);
    if id != -1 {
      assert b in t.list && At(t.memory, b).id == id;
    }
  }

  lemma SwitchEffect(s: State, b: Breakpoint, enable: bool, filename: string)
    ensures var t := Switch(s, b, enable, filename);
            && t.list == s.list && t.index == s.index && At(t.memory, b) == At(s.memory, b).(enabled := enable)
            && (forall x :: x != b ==> At(t.memory, x) == At(s.memory, x))
            && (At(s.memory, b).enabled == enable ==> t.sent == s.sent)
  {
    SendLeaves(SetEnabled(s, b, enable), filename);
  }

  lemma RenumberEffect(s: State, b: Breakpoint, id: int)
    ensures var t := Store(s, b, At(s.memory, b).(id := id));
            && At(t.memory, b) == At(s.memory, b).(id := id)
            && (forall x :: x != b ==> At(t.memory, x) == At(s.memory, x))
  {
  }

  lemma InsertEffect(s: State, bp: Breakpoint, fields: Fields)
    ensures var t := Insert(s, bp, fields);
            && t.list == s.list + [bp] && At(t.memory, bp) == fields
            && (forall x :: x != bp ==> At(t.memory, x) == At(s.memory, x))
  {
    SendLeaves(Place(s, bp, fields), bp.filename);
  }

  /** An update that changes nothing to be told sends nothing; any other sends one list at
      most, for the file it was called with, and none only if it looks the file up in vain. */
  lemma UpdateSends(s: State, filename: string, line: int, enable: bool, id: int, bp: Breakpoint)
    requires Found(s, filename, line, id) == |s.list| ==> bp.filename == filename
    ensures var t, k := UpdateOrAdd(s, filename, line, enable, id, bp), Found(s, filename, line, id);
            && s.sent <= t.sent && |t.sent| <= |s.sent| + 1
            && (|t.sent| == |s.sent| + 1 ==> t.sent[|s.sent|].file == filename)
            && (k < |s.list| && At(s.memory, s.list[k]).enabled == enable ==> t.sent == s.sent)
            && (!s.running || !s.stopped ==> t.sent == s.sent)
            && ((k == |s.list| || At(s.memory, s.list[k]).enabled != enable) && s.running && s.stopped ==>
                  t.undefined || |t.sent| == |s.sent| + 1)
  {
    var k := Found(s, filename, line, id);
    if k < |s.list| {
      var b := s.list[k];
      SendsOne(SetEnabled(s, b, enable), filename);
      SendsOne(SetEnabled(Store(s, b, At(s.memory, b).(id := id)), b, enable), filename);
    } else {
      SendsOne(Place(s, bp, Fields(line, id, true)), filename);
    }
  }

  // ---------- switching, deleting ----------

  /** Switching a breakpoint of the list changes that, and nothing else of any. */
  lemma EnableEffect(s: State, bp: Breakpoint, enable: bool)
    requires Listed(s)
    ensures var t := Enable(s, bp, enable);
            && t.list == s.list && t.index == s.index
            && (bp in s.list ==> At(t.memory, bp) == At(s.memory, bp).(enabled := enable))
            && (bp !in s.list ==> t == s)
            && (forall x :: x != bp ==> At(t.memory, x) == At(s.memory, x))
  {
    if bp in s.list {
      FindsItself(s, bp);
      SwitchEffect(s, bp, enable, bp.filename);
      var f := At(s.memory, bp);
      RenumberEffect(s, bp, f.id);
      SwitchEffect(Store(s, bp, f.(id := f.id)), bp, enable, bp.filename);
    }
  }

  /** One list at most is sent, for the breakpoint's file, and none if nothing is switched. */
  lemma EnableSends(s: State, bp: Breakpoint, enable: bool)
    requires Listed(s)
    ensures var t := Enable(s, bp, enable);
            && s.sent <= t.sent && |t.sent| <= |s.sent| + 1
            && (|t.sent| == |s.sent| + 1 ==> t.sent[|s.sent|].file == bp.filename)
            && (bp !in s.list || At(s.memory, bp).enabled == enable || !s.running || !s.stopped ==> t.sent == s.sent)
            && (bp in s.list && At(s.memory, bp).enabled != enable && s.running && s.stopped ==>
                  t.undefined || |t.sent| == |s.sent| + 1)
  {
    if bp in s.list {
      FindsItself(s, bp);
      var f := At(s.memory, bp);
      UpdateSends(s, bp.filename, f.line, enable, f.id, bp);
    }
  }

  /** The same for a deletion. */
  lemma DeletionSends(s: State, bp: Breakpoint)
    ensures var t := Delete(s, bp);
            && s.sent <= t.sent && |t.sent| <= |s.sent| + 1
            && (|t.sent| == |s.sent| + 1 ==> t.sent[|s.sent|].file == bp.filename)
            && (bp !in s.list || !s.running || !s.stopped ==> t.sent == s.sent)
            && (bp in s.list && bp.kind == Code && s.running && s.stopped ==> t.undefined || |t.sent| == |s.sent| + 1)
  {
    if bp in s.list {
      SendsOne(s.(index := Removed(s.index, s.memory, bp.filename, bp), list := Drop(s.list, Position(s.list, bp))),
               bp.filename);
    }
  }

  /** Deleting takes the breakpoint out of the list, wherever it is, and changes none. */
  lemma DeleteEffect(s: State, bp: Breakpoint) returns (i: nat)
    requires Listed(s)
    ensures var t := Delete(s, bp);
            && t.memory == s.memory
            && (bp !in s.list ==> t == s)
            && (bp in s.list ==> i < |s.list| && s.list[i] == bp && t.list == s.list[..i] + s.list[i + 1..])
            && (bp in s.list ==> bp !in t.list)
  {
    i := Position(s.list, bp);
    if bp in s.list {
      UniqueObjects(s.list, s.memory);
      DropMembers(s.list, i);
    }
  }

  lemma {:induction false} EachDeletionSends(s: State, doomed: seq<Breakpoint>, f: string)
    requires forall b :: b in doomed ==> b.filename == f
    ensures var t := DeleteEach(s, doomed);
            && s.sent <= t.sent && |t.sent| <= |s.sent| + |doomed|
            && forall i :: |s.sent| <= i < |t.sent| ==> t.sent[i].file == f
    decreases doomed
  {
    if |doomed| > 0 {
      assert doomed[0] in doomed && forall b :: b in doomed[1..] ==> b in doomed;
      DeletionSends(s, doomed[0]);
      EachDeletionSends(Delete(s, doomed[0]), doomed[1..], f);
    }
  }

  /** A shift sends lists for its own file only, and none if it deletes nothing. */
  lemma ShiftSendsOwn(s: State, f: string, start: int, lines: int)
    requires Listed(s)
    ensures var t := Shift(s, f, start, lines);
            && s.sent <= t.sent && (forall i :: |s.sent| <= i < |t.sent| ==> t.sent[i].file == f)
            && ((forall b :: b in s.list ==> !Dies(s.memory, b, f, start, lines)) ==> t.sent == s.sent)
  {
    var memory, doomed := Moved(s.memory, s.list, f, start, lines), Doomed(s.memory, s.list, f, start, lines);
    UniqueObjects(s.list, s.memory);
    DoomedAre(s.memory, s.list, f, start, lines);
    EachDeletionSends(s.(memory := memory), doomed, f);
    if forall b :: b in s.list ==> !Dies(s.memory, b, f, start, lines) {
      NoneDoomed(s.memory, s.list, f, start, lines);
    }
  }

  /** Deleting everything leaves neither list nor index, and, in a session, tells the
      debugger so once for each file. */
  lemma DeleteAllEffect(s: State, files: seq<string>)
    ensures var t := DeleteAll(s, files);
            && t.list == [] && t.index == map[] && t.memory == s.memory && t.undefined == s.undefined
            && (!s.running ==> t.sent == s.sent)
            && (s.running ==>
                  && |t.sent| == |s.sent| + |files| && t.sent[..|s.sent|] == s.sent
                  && forall i :: 0 <= i < |files| ==> t.sent[|s.sent| + i] == Sending(files[i], []))
  {
  }

  /** What a reset forgets. */
  lemma ResetEffect(s: State, reset: Reset)
    ensures var t := ResetData(s, reset);
            && t.memory == s.memory && t.sent == s.sent && t.running == s.running && t.stopped == s.stopped
            && t.list == (if reset.All? then [] else s.list)
            && t.index == (if reset.Normal? then s.index else map[])
  {
  }

  // ---------- the start ----------

  ghost predicate Informs(sending: Sending, s: State, f: string) {
    sending.file == f && Tells([sending], f, Wanted(s.list, s.memory, f))
  }

  /** To what was sent before, one list has been added for each file, in their order, with
      exactly the lines of its enabled breakpoints, each once. */
  ghost predicate OneEach(before: seq<Sending>, after: seq<Sending>, s: State, files: seq<string>) {
    && |after| == |before| + |files| && before <= after
    && forall i :: 0 <= i < |files| ==> Informs(after[|before| + i], s, files[i])
  }

  /** That is what the start of a session does. */
  lemma StartSends(s: State, files: seq<string>)
    requires Inv(s) && Live(s) && Orders(files, CreateStart(s, files).index)
    ensures OneEach(s.sent, CreateStart(s, files).sent, s, files)
  {
    var t := s.(index := AddEach(s.index, s.memory, s.list));
    StartCompletes(s, files);
    SendEachKeeps(t, files);
    EachIsSent(t, files);
    SameBreakpoints(s.sent, CreateStart(s, files).sent, s, t, files);
  }

  lemma SameBreakpoints(before: seq<Sending>, after: seq<Sending>, s: State, t: State, files: seq<string>)
    requires OneEach(before, after, t, files) && s.list == t.list && s.memory == t.memory
    ensures OneEach(before, after, s, files)
  {
    forall i | 0 <= i < |files| ensures Informs(after[|before| + i], s, files[i]) {
      assert Informs(after[|before| + i], t, files[i]);
    }
  }

  lemma OneMoreSent(before: seq<Sending>, after: seq<Sending>, s: State, files: seq<string>, sending: Sending)
    requires OneEach(before, after, s, files) && Informs(sending, s, sending.file)
    ensures OneEach(before, after + [sending], s, files + [sending.file])
  {
    forall i | 0 <= i <= |files| ensures Informs((after + [sending])[|before| + i], s, (files + [sending.file])[i]) {
      assert i < |files| ==> Informs(after[|before| + i], s, files[i]);
    }
  }

  lemma {:induction false} EachIsSent(s: State, files: seq<string>)
    requires Inv(s) && Live(s) && Complete(s.list, s.index) && forall g :: g in files ==> g in s.index
    ensures OneEach(s.sent, SendEach(s, files).sent, s, files)
  {
    if |files| > 0 {
      var front, last := files[..|files| - 1], files[|files| - 1];
      EachIsSent(s, front);
      SendEachKeeps(s, front);
      var sending := Sending(last, EnabledLines(Bucket(s.index, last), s.memory));
      BucketInforms(s, last);
      OneMoreSent(s.sent, SendEach(s, front).sent, s, front, sending);
      assert files == front + [last];
    }
  }

  lemma BucketInforms(s: State, f: string)
    requires Inv(s) && Complete(s.list, s.index)
    ensures Informs(Sending(f, EnabledLines(Bucket(s.index, f), s.memory)), s, f)
  {
    var sending := Sending(f, EnabledLines(Bucket(s.index, f), s.memory));
    BucketTells([], s.list, s.index, s.memory, f);
    assert [] + [sending] == [sending];
  }
}
