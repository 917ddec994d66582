/** Breakpoints follow their text when lines are inserted or deleted. */
module BreakpointShift {
  import opened Breakpoints
  import opened BreakpointInvariants

  function LineOf(memory: Memory, b: Breakpoint): int {
    At(memory, b).line
  }

  // ---------- the list ----------

  lemma {:induction false} DoomedAre(memory: Memory, list: seq<Breakpoint>, f: string, start: int, lines: int)
    requires NoDup(list)
    ensures forall b :: b in Doomed(memory, list, f, start, lines) ==> b in list && Dies(memory, b, f, start, lines)
    ensures forall b :: b in list && Dies(memory, b, f, start, lines) ==> b in Doomed(memory, list, f, start, lines)
    ensures NoDup(Doomed(memory, list, f, start, lines))
  {
    if |list| > 0 {
      var front, last := list[..|list| - 1], list[|list| - 1];
      DoomedAre(memory, front, f, start, lines);
      assert last !in front;
      assert forall b :: b in list <==> b in front || b == last;
    }
  }

  /** What a list of deletions does to the list of breakpoints. */
  lemma {:induction false} DeleteEachList(s: State, doomed: seq<Breakpoint>)
    requires NoDup(s.list) && NoDup(doomed) && forall b :: b in doomed ==> b in s.list && b.kind == Code
    ensures var t := DeleteEach(s, doomed);
            && t.memory == s.memory && NoDup(t.list)
            && (forall b :: b in t.list ==> b in s.list && b !in doomed)
            && (forall b :: b in s.list && b !in doomed ==> b in t.list)
    decreases doomed
  {
    if |doomed| > 0 {
      DropMembers(s.list, Position(s.list, doomed[0]));
      assert forall b :: b in doomed <==> b == doomed[0] || b in doomed[1..];
      assert doomed[0] !in doomed[1..];
      DeleteEachList(Delete(s, doomed[0]), doomed[1..]);
    }
  }

  lemma ShiftList(s: State, f: string, start: int, lines: int)
    requires Made(s.list, s.memory) && Unique(s.list, s.memory)
    ensures var t := Shift(s, f, start, lines);
            && t.memory == Moved(s.memory, s.list, f, start, lines) && NoDup(t.list)
            && (forall b :: b in t.list ==> b in s.list && !Dies(s.memory, b, f, start, lines))
            && (forall b :: b in s.list && !Dies(s.memory, b, f, start, lines) ==> b in t.list)
  {
    UniqueObjects(s.list, s.memory);
    DoomedAre(s.memory, s.list, f, start, lines);
    DeleteEachList(s.(memory := Moved(s.memory, s.list, f, start, lines)), Doomed(s.memory, s.list, f, start, lines));
  }

  /** The text after `inserted` is put in before line `start`, or, if `lines` is negative,
      after that many lines are taken out there. */
  function Edited<T>(text: seq<T>, start: int, lines: int, inserted: seq<T>): seq<T>
    requires 0 <= start <= |text| && start - lines <= |text|
  {
    if lines < 0 then text[..start] + text[start - lines..] else text[..start] + inserted + text[start..]
  }

  lemma MovedLine(s: State, b: Breakpoint, f: string, start: int, lines: int)
    requires Made(s.list, s.memory) && Unique(s.list, s.memory) && b in s.list
    ensures LineOf(Moved(s.memory, s.list, f, start, lines), b)
         == LineOf(s.memory, b) + if Moves(s.memory, b, f, start, lines) then lines else 0
  {
  }

  /** A breakpoint on a line of the text stays exactly if its line does, and then sits on
      the same line of the new text. */
  lemma TracksText<T>(s: State, f: string, start: int, lines: int, text: seq<T>, inserted: seq<T>, b: Breakpoint)
    requires Inv(s) && 0 <= start <= |text| && start - lines <= |text| && (lines >= 0 ==> |inserted| == lines)
    requires b in s.list && b.filename == f && 0 <= LineOf(s.memory, b) < |text|
    ensures var t, after, n := Shift(s, f, start, lines), Edited(text, start, lines, inserted), LineOf(s.memory, b);
            && (b in t.list <==> !(start <= n < start - lines))
            && (b in t.list ==> var m := LineOf(t.memory, b); 0 <= m < |after| && after[m] == text[n])
            && At(t.memory, b).id == At(s.memory, b).id && At(t.memory, b).enabled == At(s.memory, b).enabled
  {
    ShiftList(s, f, start, lines);
    MovedLine(s, b, f, start, lines);
  }

  /** Breakpoints of other files stay as they are. */
  lemma OthersStay(s: State, f: string, start: int, lines: int, b: Breakpoint)
    requires Inv(s) && b.filename != f
    ensures var t := Shift(s, f, start, lines);
            (b in t.list <==> b in s.list) && At(t.memory, b) == At(s.memory, b)
  {
    ShiftList(s, f, start, lines);
  }

  lemma ShiftUnique(s: State, f: string, start: int, lines: int)
    requires Made(s.list, s.memory) && Unique(s.list, s.memory)
    ensures var t := Shift(s, f, start, lines); Unique(t.list, t.memory) && Made(t.list, t.memory)
  {
    var t := Shift(s, f, start, lines);
    ShiftList(s, f, start, lines);
    UniqueObjects(s.list, s.memory);
    forall i, j | 0 <= i < j < |t.list| && t.list[i].filename == t.list[j].filename
      ensures LineOf(t.memory, t.list[i]) != LineOf(t.memory, t.list[j])
    {
      assert t.list[i] in t.list && t.list[j] in t.list;
      MovedLine(s, t.list[i], f, start, lines);
      MovedLine(s, t.list[j], f, start, lines);
    }
  }

  lemma ShiftLists(s: State, f: string, start: int, lines: int)
    requires Listed(s)
    ensures Listed(Shift(s, f, start, lines))
  {
    ShiftList(s, f, start, lines);
    ShiftUnique(s, f, start, lines);
    var t := Shift(s, f, start, lines);
    assert forall b :: b in t.list ==> At(t.memory, b).id == At(s.memory, b).id;
  }

  // ---------- the bucket ----------

  /** The first entry on a line taken out. */
  function Strike(bucket: seq<Breakpoint>, memory: Memory, line: int): seq<Breakpoint> {
    Drop(bucket, FirstAt(bucket, memory, line))
  }

  function StrikeEach(bucket: seq<Breakpoint>, memory: Memory, doomed: seq<Breakpoint>): seq<Breakpoint>
    decreases doomed
  {
    if |doomed| == 0 then bucket else StrikeEach(Strike(bucket, memory, LineOf(memory, doomed[0])), memory, doomed[1..])
  }

  predicate IsFirst(bucket: seq<Breakpoint>, memory: Memory, b: Breakpoint) {
    var i := FirstAt(bucket, memory, LineOf(memory, b));
    i < |bucket| && bucket[i] == b
  }

  predicate OnLineOf(memory: Memory, b: Breakpoint, doomed: seq<Breakpoint>) {
    exists d :: d in doomed && LineOf(memory, d) == LineOf(memory, b)
  }

  /** Taking out one line's first entry leaves the first entries of other lines. */
  lemma StrikeFirst(bucket: seq<Breakpoint>, memory: Memory, line: int, b: Breakpoint)
    requires NoDup(bucket) && LineOf(memory, b) != line
    ensures IsFirst(Strike(bucket, memory, line), memory, b) <==> IsFirst(bucket, memory, b)
  {
    var i, rest := FirstAt(bucket, memory, line), Strike(bucket, memory, line);
    if i < |bucket| {
      var n := LineOf(memory, b);
      var k := FirstAt(bucket, memory, n);
      assert forall j :: 0 <= j < |rest| ==> rest[j] == bucket[if j < i then j else j + 1];
      if k < |bucket| {
        FirstAtIs(rest, memory, n, if k < i then k else k - 1);
      } else {
        FirstAtIs(rest, memory, n, |rest|);
      }
    }
  }

  lemma FirstAtIs(bucket: seq<Breakpoint>, memory: Memory, line: int, k: nat)
    requires k <= |bucket| && (k < |bucket| ==> LineOf(memory, bucket[k]) == line)
    requires forall j :: 0 <= j < k ==> LineOf(memory, bucket[j]) != line
    ensures FirstAt(bucket, memory, line) == k
  {
    assert forall j :: 0 <= j < |bucket| ==> LineOf(memory, bucket[j]) == At(memory, bucket[j]).line;
  }

  /** What is left of a bucket: all but the first entry on each deleted line. */
  lemma {:induction false} StruckAre(bucket: seq<Breakpoint>, memory: Memory, doomed: seq<Breakpoint>, b: Breakpoint)
    requires NoDup(bucket)
    requires forall i, j :: 0 <= i < j < |doomed| ==> LineOf(memory, doomed[i]) != LineOf(memory, doomed[j])
    ensures b in StrikeEach(bucket, memory, doomed)
            <==> b in bucket && !(OnLineOf(memory, b, doomed) && IsFirst(bucket, memory, b))
    ensures NoDup(StrikeEach(bucket, memory, doomed))
    decreases doomed
  {
    if |doomed| > 0 {
      var line, i := LineOf(memory, doomed[0]), FirstAt(bucket, memory, LineOf(memory, doomed[0]));
      if i < |bucket| {
        DropMembers(bucket, i);
      }
      var rest := doomed[1..];
      assert forall d :: d in doomed <==> d == doomed[0] || d in rest;
      StruckAre(Strike(bucket, memory, line), memory, rest, b);
      if LineOf(memory, b) != line {
        StrikeFirst(bucket, memory, line, b);
      } else {
        assert !OnLineOf(memory, b, rest);
      }
    }
  }

  /** What a list of deletions from one file does to the index. */
  lemma {:induction false} DeleteEachIndex(s: State, doomed: seq<Breakpoint>, f: string)
    requires NoDup(s.list) && NoDup(doomed)
    requires forall b :: b in doomed ==> b in s.list && b.kind == Code && b.filename == f
    requires f in s.index ==> s.index[f] != []
    ensures var t := DeleteEach(s, doomed);
            && Bucket(t.index, f) == StrikeEach(Bucket(s.index, f), s.memory, doomed)
            && (f in t.index ==> t.index[f] != [])
            && (forall g :: g != f ==> (g in t.index <==> g in s.index) && Bucket(t.index, g) == Bucket(s.index, g))
    decreases doomed
  {
    if |doomed| > 0 {
      DeleteOne(s, doomed, f);
      DeleteEachIndex(Delete(s, doomed[0]), doomed[1..], f);
    }
  }

  lemma DeleteOne(s: State, doomed: seq<Breakpoint>, f: string)
    requires NoDup(s.list) && NoDup(doomed) && |doomed| > 0
    requires forall b :: b in doomed ==> b in s.list && b.kind == Code && b.filename == f
    requires f in s.index ==> s.index[f] != []
    ensures var t := Delete(s, doomed[0]);
            && NoDup(t.list) && NoDup(doomed[1..]) && t.memory == s.memory
            && (forall b :: b in doomed[1..] ==> b in t.list && b.kind == Code && b.filename == f)
            && Bucket(t.index, f) == Strike(Bucket(s.index, f), s.memory, LineOf(s.memory, doomed[0]))
            && (f in t.index ==> t.index[f] != [])
            && (forall g :: g != f ==> (g in t.index <==> g in s.index) && Bucket(t.index, g) == Bucket(s.index, g))
  {
    var d := doomed[0];
    DropMembers(s.list, Position(s.list, d));
    assert d !in doomed[1..];
    RemovedBucket(s.index, s.memory, d);
  }

  lemma RemovedBucket(index: Index, memory: Memory, d: Breakpoint)
    requires d.filename in index ==> index[d.filename] != []
    ensures var after, f := Removed(index, memory, d.filename, d), d.filename;
            && Bucket(after, f) == Strike(Bucket(index, f), memory, LineOf(memory, d))
            && (f in after ==> after[f] != [])
            && (forall g :: g != f ==> (g in after <==> g in index) && Bucket(after, g) == Bucket(index, g))
  {
  }

  // ---------- what deleting lines does to the sharing ----------

  /** An entry that moves onto the line of a later entry that is deleted. */
  predicate Overtakes(bucket: seq<Breakpoint>, memory: Memory, f: string, start: int, lines: int) {
    exists i, j :: 0 <= i < j < |bucket| && Moves(memory, bucket[i], f, start, lines)
      && Dies(memory, bucket[j], f, start, lines)
      && LineOf(memory, bucket[i]) + lines == LineOf(memory, bucket[j])
  }

  /** `b` and `d` on one line after the move, where `d` is deleted. */
  lemma Landing(s: State, b: Breakpoint, d: Breakpoint, f: string, start: int, lines: int)
    requires Inv(s) && b in s.list && d in s.list && b.filename == f && b != d && Dies(s.memory, d, f, start, lines)
    ensures var memory := Moved(s.memory, s.list, f, start, lines);
            LineOf(memory, b) == LineOf(memory, d)
            <==> Moves(s.memory, b, f, start, lines) && LineOf(s.memory, b) + lines == LineOf(s.memory, d)
  {
    UniqueObjects(s.list, s.memory);
    MovedLine(s, b, f, start, lines);
    MovedLine(s, d, f, start, lines);
  }

  /** The entries left in the file's bucket. */
  lemma ShiftBucket(s: State, f: string, start: int, lines: int, b: Breakpoint)
    requires Inv(s)
    ensures var t, bucket := Shift(s, f, start, lines), Bucket(s.index, f);
            var memory := Moved(s.memory, s.list, f, start, lines);
            var doomed := Doomed(s.memory, s.list, f, start, lines);
            && NoDup(Bucket(t.index, f))
            && (b in Bucket(t.index, f)
                <==> b in bucket && !(OnLineOf(memory, b, doomed) && IsFirst(bucket, memory, b)))
  {
    var memory, doomed := Moved(s.memory, s.list, f, start, lines), Doomed(s.memory, s.list, f, start, lines);
    UniqueObjects(s.list, s.memory);
    DoomedAre(s.memory, s.list, f, start, lines);
    DoomedLines(s, f, start, lines);
    DeleteEachIndex(s.(memory := memory), doomed, f);
    StruckAre(Bucket(s.index, f), memory, doomed, b);
  }

  /** No bucket is left empty, and other files' buckets stay. */
  lemma ShiftIndex(s: State, f: string, start: int, lines: int)
    requires Inv(s)
    ensures var t := Shift(s, f, start, lines);
            && (f in t.index ==> t.index[f] != [])
            && (forall g :: g != f ==> (g in t.index <==> g in s.index) && Bucket(t.index, g) == Bucket(s.index, g))
  {
    var memory, doomed := Moved(s.memory, s.list, f, start, lines), Doomed(s.memory, s.list, f, start, lines);
    UniqueObjects(s.list, s.memory);
    DoomedAre(s.memory, s.list, f, start, lines);
    DeleteEachIndex(s.(memory := memory), doomed, f);
  }

  lemma DoomedLines(s: State, f: string, start: int, lines: int)
    requires Inv(s)
    ensures var memory, doomed := Moved(s.memory, s.list, f, start, lines), Doomed(s.memory, s.list, f, start, lines);
            forall i, j :: 0 <= i < j < |doomed| ==> LineOf(memory, doomed[i]) != LineOf(memory, doomed[j])
  {
    var memory, doomed := Moved(s.memory, s.list, f, start, lines), Doomed(s.memory, s.list, f, start, lines);
    UniqueObjects(s.list, s.memory);
    DoomedAre(s.memory, s.list, f, start, lines);
    forall i, j | 0 <= i < j < |doomed| ensures LineOf(memory, doomed[i]) != LineOf(memory, doomed[j]) {
      assert doomed[i] in doomed && doomed[j] in doomed;
      MovedLine(s, doomed[i], f, start, lines);
      MovedLine(s, doomed[j], f, start, lines);
    }
  }

  /** A deleted breakpoint stays in the bucket if and only if another moved onto its line
      ahead of it. */
  lemma StaleIff(s: State, f: string, start: int, lines: int, d: Breakpoint)
    requires Inv(s) && d in s.list && Dies(s.memory, d, f, start, lines)
    ensures d in Bucket(Shift(s, f, start, lines).index, f)
            <==> var bucket := Bucket(s.index, f);
                 exists i, j :: 0 <= i < j < |bucket| && bucket[j] == d && Moves(s.memory, bucket[i], f, start, lines)
                   && LineOf(s.memory, bucket[i]) + lines == LineOf(s.memory, d)
  {
    var bucket, memory := Bucket(s.index, f), Moved(s.memory, s.list, f, start, lines);
    UniqueObjects(s.list, s.memory);
    DoomedAre(s.memory, s.list, f, start, lines);
    ShiftBucket(s, f, start, lines, d);
    if d in bucket {
      var j :| 0 <= j < |bucket| && bucket[j] == d;
      var k := FirstAt(bucket, memory, LineOf(memory, d));
      assert k <= j;
      if k < j {
        Landing(s, bucket[k], d, f, start, lines);
      }
      forall i | 0 <= i < j && Moves(s.memory, bucket[i], f, start, lines)
                 && LineOf(s.memory, bucket[i]) + lines == LineOf(s.memory, d)
        ensures k < j
      {
        Landing(s, bucket[i], d, f, start, lines);
      }
    }
  }

  /** After lines are deleted the store is consistent if and only if no entry has moved
      onto the line of a later entry that was deleted. */
  lemma ConsistentIff(s: State, f: string, start: int, lines: int)
    requires Inv(s)
    ensures Inv(Shift(s, f, start, lines)) <==> !Overtakes(Bucket(s.index, f), s.memory, f, start, lines)
  {
    var t, bucket := Shift(s, f, start, lines), Bucket(s.index, f);
    ShiftList(s, f, start, lines);
    ShiftUnique(s, f, start, lines);
    if Overtakes(bucket, s.memory, f, start, lines) {
      var i, j :| 0 <= i < j < |bucket| && Moves(s.memory, bucket[i], f, start, lines)
                  && Dies(s.memory, bucket[j], f, start, lines)
                  && LineOf(s.memory, bucket[i]) + lines == LineOf(s.memory, bucket[j]);
      StaleIff(s, f, start, lines, bucket[j]);
      assert bucket[j] !in t.list && bucket[j] in t.index[f];
    } else {
      forall g | g in t.index
        ensures t.index[g] != [] && NoDup(t.index[g]) && forall b :: b in t.index[g] ==> b in t.list && b.filename == g
      {
        BucketIsShared(s, f, start, lines, g);
      }
    }
  }

  lemma BucketIsShared(s: State, f: string, start: int, lines: int, g: string)
    requires Inv(s) && !Overtakes(Bucket(s.index, f), s.memory, f, start, lines)
    requires g in Shift(s, f, start, lines).index
    ensures var t := Shift(s, f, start, lines);
            t.index[g] != [] && NoDup(t.index[g]) && forall b :: b in t.index[g] ==> b in t.list && b.filename == g
  {
    var t := Shift(s, f, start, lines);
    ShiftList(s, f, start, lines);
    ShiftIndex(s, f, start, lines);
    assert t.index[g] == Bucket(t.index, g);
    forall b | b in t.index[g] ensures b in t.list && b.filename == g {
      ShiftBucket(s, f, start, lines, b);
      if g != f {
        assert s.index[g] == Bucket(s.index, g);
      } else if Dies(s.memory, b, f, start, lines) {
        StaleIff(s, f, start, lines, b);
        assert false;
      }
    }
    if g == f {
      ShiftBucket(s, f, start, lines, t.index[g][0]);
    }
  }

  /** The bucket's lines and the list's lines are still the same, each once, whichever
      objects the bucket has kept. */
  lemma BucketLinesStay(s: State, f: string, start: int, lines: int, n: int)
    requires Inv(s) && Complete(s.list, s.index)
    ensures var t := Shift(s, f, start, lines);
            (exists b :: b in Bucket(t.index, f) && LineOf(t.memory, b) == n)
            <==> (exists b :: b in t.list && b.filename == f && LineOf(t.memory, b) == n)
  {
    var t, bucket := Shift(s, f, start, lines), Bucket(s.index, f);
    ShiftList(s, f, start, lines);
    UniqueObjects(s.list, s.memory);
    DoomedAre(s.memory, s.list, f, start, lines);
    if b :| b in Bucket(t.index, f) && LineOf(t.memory, b) == n {
      ShiftBucket(s, f, start, lines, b);
      if Dies(s.memory, b, f, start, lines) {
        var k := FirstAt(bucket, t.memory, n);
        Landing(s, bucket[k], b, f, start, lines);
        assert bucket[k] in t.list;
      }
    }
    if b :| b in t.list && b.filename == f && LineOf(t.memory, b) == n {
      ShiftBucket(s, f, start, lines, b);
      if b !in Bucket(t.index, f) {
        var d :| d in Doomed(s.memory, s.list, f, start, lines) && LineOf(t.memory, d) == n;
        ShiftBucket(s, f, start, lines, d);
        assert d in Bucket(t.index, f);
      }
    }
  }

  /** Where sharing is kept the index stays complete. */
  lemma CompleteStays(s: State, f: string, start: int, lines: int)
    requires Inv(s) && Complete(s.list, s.index) && !Overtakes(Bucket(s.index, f), s.memory, f, start, lines)
    ensures var t := Shift(s, f, start, lines); Complete(t.list, t.index)
  {
    var t, bucket := Shift(s, f, start, lines), Bucket(s.index, f);
    ShiftList(s, f, start, lines);
    ShiftIndex(s, f, start, lines);
    UniqueObjects(s.list, s.memory);
    DoomedAre(s.memory, s.list, f, start, lines);
    forall b | b in t.list ensures b in Bucket(t.index, b.filename) {
      assert b in Bucket(s.index, b.filename);
      if b.filename == f {
        ShiftBucket(s, f, start, lines, b);
        if OnLineOf(t.memory, b, Doomed(s.memory, s.list, f, start, lines)) && IsFirst(bucket, t.memory, b) {
          var d :| d in Doomed(s.memory, s.list, f, start, lines) && LineOf(t.memory, d) == LineOf(t.memory, b);
          Landing(s, b, d, f, start, lines);
        }
      }
    }
  }

  /** No two entries of the bucket are on one line. */
  lemma BucketLinesDistinct(s: State, f: string, start: int, lines: int, a: Breakpoint, b: Breakpoint)
    requires Inv(s) && a != b
    requires var t := Shift(s, f, start, lines); a in Bucket(t.index, f) && b in Bucket(t.index, f)
    ensures var t := Shift(s, f, start, lines); LineOf(t.memory, a) != LineOf(t.memory, b)
  {
    var t := Shift(s, f, start, lines);
    ShiftList(s, f, start, lines);
    ShiftUnique(s, f, start, lines);
    UniqueObjects(t.list, t.memory);
    UniqueObjects(s.list, s.memory);
    DoomedAre(s.memory, s.list, f, start, lines);
    ShiftBucket(s, f, start, lines, a);
    ShiftBucket(s, f, start, lines, b);
    if LineOf(t.memory, a) == LineOf(t.memory, b) {
      var n := LineOf(t.memory, a);
      assert Dies(s.memory, a, f, start, lines) || Dies(s.memory, b, f, start, lines);
      var k := FirstAt(Bucket(s.index, f), t.memory, n);
      var d := if Dies(s.memory, a, f, start, lines) then a else b;
      var x := Bucket(s.index, f)[k];
      assert x != a && x != b;
      Landing(s, x, d, f, start, lines);
    }
  }

  // ---------- the sends on the way ----------

  lemma {:induction false} StrikeNothing(memory: Memory, doomed: seq<Breakpoint>)
    ensures StrikeEach([], memory, doomed) == []
    decreases doomed
  {
    if |doomed| > 0 {
      StrikeNothing(memory, doomed[1..]);
    }
  }

  predicate FileGone(index: Index, f: string) {
    index != map[] && f !in index
  }

  lemma {:induction false} DeleteEachUndefined(s: State, doomed: seq<Breakpoint>, f: string)
    requires NoDup(s.list) && NoDup(doomed)
    requires forall b :: b in doomed ==> b in s.list && b.kind == Code && b.filename == f
    requires f in s.index ==> s.index[f] != []
    ensures var t := DeleteEach(s, doomed);
            t.undefined == (s.undefined || (Live(s) && |doomed| > 0 && FileGone(t.index, f)))
    decreases doomed
  {
    if |doomed| > 0 {
      var mid, t := Delete(s, doomed[0]), DeleteEach(s, doomed);
      DeleteOne(s, doomed, f);
      DeleteEachUndefined(mid, doomed[1..], f);
      DeleteEachIndex(mid, doomed[1..], f);
      StrikeNothing(s.memory, doomed[1..]);
      if FileGone(mid.index, f) {
        var g :| g in mid.index;
        assert g in t.index;
      }
    }
  }

  /** The line a breakpoint is on after the edit, if it is not deleted. */
  function LineAfter(memory: Memory, b: Breakpoint, f: string, start: int, lines: int): int {
    LineOf(memory, b) + if Moves(memory, b, f, start, lines) then lines else 0
  }

  /** `b` is deleted or moves onto the line of a breakpoint that is. */
  predicate OnDeleted(s: State, b: Breakpoint, f: string, start: int, lines: int) {
    exists d :: d in s.list && Dies(s.memory, d, f, start, lines)
      && LineOf(s.memory, d) == LineAfter(s.memory, b, f, start, lines)
  }

  /** All entries of the file's bucket do, and no two come to be on one line. */
  predicate Cleared(s: State, f: string, start: int, lines: int) {
    var bucket := Bucket(s.index, f);
    && (forall b :: b in bucket ==> OnDeleted(s, b, f, start, lines))
    && (forall a, b | a in bucket && b in bucket && a != b ::
          LineAfter(s.memory, a, f, start, lines) != LineAfter(s.memory, b, f, start, lines))
  }

  /** The file has lost all its entries, and another file has some. */
  predicate LosesFile(s: State, f: string, start: int, lines: int) {
    Cleared(s, f, start, lines) && exists g :: g in s.index && g != f
  }

  lemma StruckIff(s: State, f: string, start: int, lines: int, b: Breakpoint)
    requires Inv(s) && b in Bucket(s.index, f)
    ensures var bucket := Bucket(s.index, f);
            b !in Bucket(Shift(s, f, start, lines).index, f)
            <==> OnDeleted(s, b, f, start, lines) && IsFirst(bucket, Moved(s.memory, s.list, f, start, lines), b)
  {
    var memory, doomed := Moved(s.memory, s.list, f, start, lines), Doomed(s.memory, s.list, f, start, lines);
    UniqueObjects(s.list, s.memory);
    DoomedAre(s.memory, s.list, f, start, lines);
    ShiftBucket(s, f, start, lines, b);
    MovedLine(s, b, f, start, lines);
    forall d | d in doomed ensures LineOf(memory, d) == LineOf(s.memory, d) {
      MovedLine(s, d, f, start, lines);
    }
  }

  /** Entries that end on lines of their own are the first on them. */
  lemma ClearedIff(s: State, f: string, start: int, lines: int)
    requires Inv(s)
    ensures var bucket, memory := Bucket(s.index, f), Moved(s.memory, s.list, f, start, lines);
            Cleared(s, f, start, lines)
            <==> forall b :: b in bucket ==> OnDeleted(s, b, f, start, lines) && IsFirst(bucket, memory, b)
  {
    var bucket, memory := Bucket(s.index, f), Moved(s.memory, s.list, f, start, lines);
    forall b | b in bucket ensures LineOf(memory, b) == LineAfter(s.memory, b, f, start, lines) {
      MovedLine(s, b, f, start, lines);
    }
    if Cleared(s, f, start, lines) {
      forall b | b in bucket ensures IsFirst(bucket, memory, b) {
        var k := FirstAt(bucket, memory, LineOf(memory, b));
        assert bucket[k] in bucket && LineOf(memory, bucket[k]) == LineOf(memory, b);
      }
    }
  }

  /** The bucket is emptied if and only if the edit clears it. */
  lemma EmptiedIff(s: State, f: string, start: int, lines: int)
    requires Inv(s)
    ensures Bucket(Shift(s, f, start, lines).index, f) == [] <==> Cleared(s, f, start, lines)
  {
    var left, bucket := Bucket(Shift(s, f, start, lines).index, f), Bucket(s.index, f);
    ClearedIff(s, f, start, lines);
    forall b | b in bucket
      ensures b !in left <==> OnDeleted(s, b, f, start, lines)
                              && IsFirst(bucket, Moved(s.memory, s.list, f, start, lines), b)
    {
      StruckIff(s, f, start, lines, b);
    }
    if left != [] {
      ShiftBucket(s, f, start, lines, left[0]);
      assert left[0] in bucket;
    }
  }

  lemma GoneIff(s: State, f: string, start: int, lines: int)
    requires Inv(s)
    ensures FileGone(Shift(s, f, start, lines).index, f) <==> LosesFile(s, f, start, lines)
  {
    var t := Shift(s, f, start, lines);
    ShiftIndex(s, f, start, lines);
    EmptiedIff(s, f, start, lines);
    if FileGone(t.index, f) {
      var g :| g in t.index;
      assert g in s.index && g != f;
    }
  }

  /** With a complete index: all the file's breakpoints are deleted, and another file has
      some. */
  lemma LosesAll(s: State, f: string, start: int, lines: int)
    requires Inv(s) && Complete(s.list, s.index)
    ensures LosesFile(s, f, start, lines)
            <==> (forall b :: b in s.list && b.filename == f ==> Dies(s.memory, b, f, start, lines))
                 && exists b :: b in s.list && b.filename != f
  {
    UniqueObjects(s.list, s.memory);
    if Cleared(s, f, start, lines) {
      forall b | b in s.list && b.filename == f ensures Dies(s.memory, b, f, start, lines) {
        assert b in Bucket(s.index, f);
        var d :| d in s.list && Dies(s.memory, d, f, start, lines)
                 && LineOf(s.memory, d) == LineAfter(s.memory, b, f, start, lines);
        assert d in Bucket(s.index, f);
      }
    }
    if g :| g in s.index && g != f {
      assert s.index[g][0] in s.list;
    }
    if b :| b in s.list && b.filename != f {
      assert b in Bucket(s.index, b.filename);
    }
  }

  /** In a live session the shift reads past the end of the index if and only if it deletes
      breakpoints, clears their file's bucket, and another file has one. */
  lemma ShiftUndefined(s: State, f: string, start: int, lines: int)
    requires Inv(s)
    ensures Shift(s, f, start, lines).undefined
         == (s.undefined || (Live(s) && LosesFile(s, f, start, lines)
                             && exists b :: b in s.list && Dies(s.memory, b, f, start, lines)))
  {
    var doomed := Doomed(s.memory, s.list, f, start, lines);
    UniqueObjects(s.list, s.memory);
    DoomedAre(s.memory, s.list, f, start, lines);
    DeleteEachUndefined(s.(memory := Moved(s.memory, s.list, f, start, lines)), doomed, f);
    GoneIff(s, f, start, lines);
    if |doomed| > 0 {
      assert doomed[0] in doomed;
    }
  }
}
