/** Runs of the breakpoint store's operations. */
module BreakpointRuns {
  import opened Breakpoints
  import opened BreakpointEffects
  import opened BreakpointInvariants
  import opened BreakpointShift
  import opened BreakpointSync
  import opened BreakpointStore

  datatype Op =
    | DoUpdate(file: string, line: int, enable: bool, id: int, bp: Breakpoint)
    | DoEnable(bp: Breakpoint, enable: bool)
    | DoDelete(bp: Breakpoint)
    | DoDeleteAll(files: seq<string>)
    | DoReset(reset: Reset)
    | DoStart(files: seq<string>)
    | DoShift(file: string, start: int, lines: int)
    | DoSession(running: bool, stopped: bool)

  function Apply(s: State, op: Op): State {
    match op
    case DoUpdate(file, line, enable, id, bp) => UpdateOrAdd(s, file, line, enable, id, bp)
    case DoEnable(bp, enable) => Enable(s, bp, enable)
    case DoDelete(bp) => Delete(s, bp)
    case DoDeleteAll(files) => DeleteAll(s, files)
    case DoReset(reset) => ResetData(s, reset)
    case DoStart(files) => CreateStart(s, files)
    case DoShift(file, start, lines) => Shift(s, file, start, lines)
    case DoSession(running, stopped) => Session(s, running, stopped)
  }

  /** A breakpoint that is made is a new object of the file. */
  predicate Possible(s: State, op: Op) {
    op.DoUpdate? && Found(s, op.file, op.line, op.id) == |s.list| ==>
      op.bp !in s.memory && op.bp.filename == op.file && op.bp.kind == Code
  }

  const EMPTY := State([], map[], map[], false, false, [], false)

  function RunFrom(s: State, ops: seq<Op>): State {
    if |ops| == 0 then s else Apply(RunFrom(s, ops[..|ops| - 1]), ops[|ops| - 1])
  }

  function Run(ops: seq<Op>): State {
    RunFrom(EMPTY, ops)
  }

  predicate PossibleFrom(s: State, ops: seq<Op>) {
    |ops| == 0 || (PossibleFrom(s, ops[..|ops| - 1]) && Possible(RunFrom(s, ops[..|ops| - 1]), ops[|ops| - 1]))
  }

  predicate AllPossible(ops: seq<Op>) {
    PossibleFrom(EMPTY, ops)
  }

  // ---------- the list over runs ----------

  lemma ApplyLists(s: State, op: Op)
    requires Listed(s) && Possible(s, op)
    ensures Listed(Apply(s, op))
  {
    match op {
      case DoUpdate(file, line, enable, id, bp) => UpdateLists(s, file, line, enable, id, bp);
      case DoEnable(bp, enable) => EnableLists(s, bp, enable);
      case DoDelete(bp) => DeleteLists(s, bp);
      case DoStart(files) => SendEachKeeps(s.(index := AddEach(s.index, s.memory, s.list)), files);
      case DoShift(file, start, lines) => ShiftLists(s, file, start, lines);
      case _ =>
    }
  }

  /** In every state: no two breakpoints share a file and a line, and none share an id
      other than -1. */
  lemma {:induction false} RunLists(ops: seq<Op>)
    requires AllPossible(ops)
    ensures Listed(Run(ops))
  {
    if |ops| > 0 {
      RunLists(ops[..|ops| - 1]);
      ApplyLists(Run(ops[..|ops| - 1]), ops[|ops| - 1]);
    }
  }

  // ---------- list and index over runs ----------

  /** A shift that moves an entry onto the line of a later entry it deletes. */
  predicate Collides(s: State, op: Op) {
    op.DoShift? && Overtakes(Bucket(s.index, op.file), s.memory, op.file, op.start, op.lines)
  }

  predicate NeverCollides(ops: seq<Op>) {
    |ops| == 0 || (NeverCollides(ops[..|ops| - 1]) && !Collides(Run(ops[..|ops| - 1]), ops[|ops| - 1]))
  }

  predicate AlwaysConsistent(ops: seq<Op>) {
    Inv(Run(ops)) && (|ops| == 0 || AlwaysConsistent(ops[..|ops| - 1]))
  }

  lemma ApplyKeeps(s: State, op: Op)
    requires Inv(s) && Possible(s, op)
    ensures Inv(Apply(s, op)) <==> !Collides(s, op)
  {
    match op {
      case DoUpdate(file, line, enable, id, bp) => UpdateKeeps(s, file, line, enable, id, bp);
      case DoEnable(bp, enable) => EnableKeeps(s, bp, enable);
      case DoDelete(bp) => DeleteKeeps(s, bp);
      case DoStart(files) => StartCompletes(s, files);
      case DoShift(file, start, lines) => ConsistentIff(s, file, start, lines);
      case _ =>
    }
  }

  /** At every moment of a run list and index agree (no bucket is empty, and buckets hold
      distinct objects of the list, of their own file), if and only if no shift of the run
      moves an entry onto the line of a later entry it deletes. */
  lemma {:induction false} RunKeeps(ops: seq<Op>)
    requires AllPossible(ops)
    ensures AlwaysConsistent(ops) <==> NeverCollides(ops)
  {
    if |ops| > 0 {
      RunKeeps(ops[..|ops| - 1]);
      if AlwaysConsistent(ops[..|ops| - 1]) {
        ApplyKeeps(Run(ops[..|ops| - 1]), ops[|ops| - 1]);
      }
    }
  }

  // ---------- the debugger over runs ----------

  ghost predicate Informed(s: State) {
    Inv(s) && Listed(s) && InStep(s) && !s.undefined
  }

  /** The files that are visited are those of the index, each once. */
  ghost predicate Ordered(s: State, op: Op) {
    match op
    case DoDeleteAll(files) => Orders(files, s.index)
    case DoStart(files) => Orders(files, CreateStart(s, files).index)
    case _ => true
  }

  /** After the deletion the file still has a breakpoint, or no file has one. */
  predicate Keeps(s: State, bp: Breakpoint) {
    var rest := Drop(s.list, Position(s.list, bp));
    |rest| == 0 || exists b :: b in rest && b.filename == bp.filename
  }

  /** What leaves the debugger informed: an update that changes nothing or finds a
      breakpoint of its file or none, a deletion that leaves its file a breakpoint or leaves
      none at all, a reset with nothing to forget, and a shift that moves no breakpoint onto
      the line of a later one it deletes, does not delete the last ones of one file among
      others, and deletes some or moves no enabled one. */
  predicate Fits(s: State, op: Op) {
    match op
    case DoUpdate(file, line, enable, id, bp) =>
      var k := Found(s, file, line, id);
      k < |s.list| ==> s.list[k].filename == file || At(s.memory, s.list[k]).enabled == enable
    case DoDelete(bp) => bp in s.list ==> Keeps(s, bp)
    case DoReset(reset) =>
      (reset == Startup ==> |s.list| == 0) && (reset == All ==> forall b :: b in s.list ==> !At(s.memory, b).enabled)
    case DoShift(file, start, lines) =>
      && !Collides(s, op) && !LastDie(s, file, start, lines)
      && (SomeDie(s, file, start, lines) || lines == 0 || !EnabledMoves(s, file, start, lines))
    case DoSession(running, stopped) => running && stopped
    case _ => true
  }

  lemma EnableInforms(s: State, bp: Breakpoint, enable: bool)
    requires Informed(s)
    ensures Informed(Enable(s, bp, enable))
  {
    EnableKeeps(s, bp, enable);
    EnableLists(s, bp, enable);
    EnableInStep(s, bp, enable);
  }

  lemma UpdateInforms(s: State, op: Op)
    requires Informed(s) && op.DoUpdate? && Possible(s, op)
    ensures Informed(Apply(s, op)) <==> Fits(s, op)
  {
    var k := Found(s, op.file, op.line, op.id);
    ApplyKeeps(s, op);
    ApplyLists(s, op);
    UpdateInStep(s, op.file, op.line, op.enable, op.id, op.bp);
    if k < |s.list| {
      assert s.list[k] in Bucket(s.index, s.list[k].filename);
      if !CanSend(s.index, op.file) {
        UpdateLost(s, op);
      }
    }
  }

  /** An update that switches a breakpoint, called with a file that has none. */
  lemma UpdateLost(s: State, op: Op)
    requires Informed(s) && op.DoUpdate? && !CanSend(s.index, op.file)
    requires Found(s, op.file, op.line, op.id) < |s.list|
    ensures var b := s.list[Found(s, op.file, op.line, op.id)];
            b.filename != op.file && (At(s.memory, b).enabled != op.enable ==> Apply(s, op).undefined)
  {
    var b := s.list[Found(s, op.file, op.line, op.id)];
    assert b in Bucket(s.index, b.filename);
  }

  lemma ResetInforms(s: State, reset: Reset)
    requires Informed(s)
    ensures Informed(ResetData(s, reset)) <==> Fits(s, DoReset(reset))
  {
    var t := ResetData(s, reset);
    if reset == All {
      ForgottenInStep(s);
    } else if reset == Startup && |s.list| > 0 {
      assert s.list[0] !in Bucket(t.index, s.list[0].filename);
    }
  }

  /** Forgetting all breakpoints without telling the debugger. */
  lemma ForgottenInStep(s: State)
    requires InStep(s)
    ensures InStep(ResetData(s, All)) <==> forall b :: b in s.list ==> !At(s.memory, b).enabled
  {
    var t := ResetData(s, All);
    assert forall f :: Wanted(t.list, t.memory, f) == {};
    if InStep(t) {
      forall b | b in s.list ensures !At(s.memory, b).enabled {
        var wanted := Wanted(s.list, s.memory, b.filename);
        assert Tells(t.sent, b.filename, Wanted(t.list, t.memory, b.filename));
        TellsOne(s.sent, b.filename, wanted, {});
        assert At(s.memory, b).enabled ==> At(s.memory, b).line in wanted;
      }
    }
    if forall b :: b in s.list ==> !At(s.memory, b).enabled {
      forall f ensures Tells(t.sent, f, Wanted(t.list, t.memory, f)) {
        assert Wanted(s.list, s.memory, f) == {};
      }
    }
  }

  lemma StartInforms(s: State, files: seq<string>)
    requires Inv(s) && Listed(s) && Live(s) && !s.undefined && Orders(files, CreateStart(s, files).index)
    requires s.sent == [] || InStep(s)
    ensures Informed(CreateStart(s, files))
  {
    StartCompletes(s, files);
    ApplyLists(s, DoStart(files));
    forall f | (forall b :: b in s.list ==> b.filename != f) ensures Tells(s.sent, f, {}) {
      if InStep(s) {
        assert Wanted(s.list, s.memory, f) == {};
      }
    }
    StartInStep(s, files);
  }

  lemma DeleteInforms(s: State, bp: Breakpoint)
    requires Informed(s)
    ensures Informed(Delete(s, bp)) <==> Fits(s, DoDelete(bp))
  {
    ApplyKeeps(s, DoDelete(bp));
    ApplyLists(s, DoDelete(bp));
    if bp in s.list {
      DeleteInStep(s, bp);
    }
  }

  lemma ShiftInforms(s: State, file: string, start: int, lines: int)
    requires Informed(s)
    ensures Informed(Shift(s, file, start, lines)) <==> Fits(s, DoShift(file, start, lines))
  {
    ConsistentIff(s, file, start, lines);
    ShiftLists(s, file, start, lines);
    if !Collides(s, DoShift(file, start, lines)) {
      ShiftInStep(s, file, start, lines);
    }
  }

  /** An operation leaves the debugger informed if and only if it fits the state. */
  lemma FitsInforms(s: State, op: Op)
    requires Informed(s) && Possible(s, op) && Ordered(s, op)
    ensures Informed(Apply(s, op)) <==> Fits(s, op)
  {
    match op {
      case DoUpdate(_, _, _, _, _) => UpdateInforms(s, op);
      case DoEnable(bp, enable) => EnableInforms(s, bp, enable);
      case DoDelete(bp) => DeleteInforms(s, bp);
      case DoDeleteAll(files) => DeleteAllInStep(s, files);
      case DoReset(reset) => ResetInforms(s, reset);
      case DoStart(files) => StartInforms(s, files);
      case DoShift(file, start, lines) => ShiftInforms(s, file, start, lines);
      case DoSession(_, _) =>
    }
  }

  ghost predicate OrderedFrom(s: State, ops: seq<Op>) {
    |ops| == 0 || (OrderedFrom(s, ops[..|ops| - 1]) && Ordered(RunFrom(s, ops[..|ops| - 1]), ops[|ops| - 1]))
  }

  predicate AlwaysFits(s: State, ops: seq<Op>) {
    |ops| == 0 || (AlwaysFits(s, ops[..|ops| - 1]) && Fits(RunFrom(s, ops[..|ops| - 1]), ops[|ops| - 1]))
  }

  ghost predicate AlwaysInformed(s: State, ops: seq<Op>) {
    Informed(RunFrom(s, ops)) && (|ops| == 0 || AlwaysInformed(s, ops[..|ops| - 1]))
  }

  lemma {:induction false} InformedStays(s: State, ops: seq<Op>)
    requires Informed(s) && PossibleFrom(s, ops) && OrderedFrom(s, ops)
    ensures AlwaysInformed(s, ops) <==> AlwaysFits(s, ops)
  {
    if |ops| > 0 {
      InformedStays(s, ops[..|ops| - 1]);
      if AlwaysInformed(s, ops[..|ops| - 1]) {
        FitsInforms(RunFrom(s, ops[..|ops| - 1]), ops[|ops| - 1]);
      }
    }
  }

  lemma {:induction false} WasInformed(s: State, ops: seq<Op>)
    requires AlwaysInformed(s, ops)
    ensures Informed(s)
  {
    if |ops| > 0 {
      WasInformed(s, ops[..|ops| - 1]);
    }
  }

  // ---------- where a session begins ----------

  lemma ApplyNoneEmpty(s: State, op: Op)
    requires NoneEmpty(s.index)
    ensures NoneEmpty(Apply(s, op).index)
  {
    match op {
      case DoUpdate(file, line, enable, id, bp) => UpdateNoneEmpty(s, file, line, enable, id, bp);
      case DoEnable(bp, enable) =>
        if bp in s.list {
          UpdateNoneEmpty(s, bp.filename, At(s.memory, bp).line, enable, At(s.memory, bp).id, bp);
        }
      case DoDelete(bp) => DeleteNoneEmpty(s, bp);
      case DoStart(files) =>
        AddEachExtends(s.index, s.memory, s.list);
        SendEachKeeps(s.(index := AddEach(s.index, s.memory, s.list)), files);
      case DoShift(file, start, lines) =>
        DeleteEachNoneEmpty(s.(memory := Moved(s.memory, s.list, file, start, lines)),
                            Doomed(s.memory, s.list, file, start, lines));
      case _ =>
    }
  }

  lemma {:induction false} RunNoneEmpty(ops: seq<Op>)
    ensures NoneEmpty(Run(ops).index)
  {
    if |ops| > 0 {
      RunNoneEmpty(ops[..|ops| - 1]);
      ApplyNoneEmpty(Run(ops[..|ops| - 1]), ops[|ops| - 1]);
    }
  }

  /** Any run, then the session, then the start. */
  function Begun(ops: seq<Op>, files: seq<string>): State {
    CreateStart(Session(Run(ops), true, true), files)
  }

  ghost predicate MayBegin(ops: seq<Op>, files: seq<string>) {
    AllPossible(ops) && !Run(ops).running && Orders(files, Begun(ops, files).index)
  }

  /** List and index agree, and no lookup has failed. */
  predicate Sane(s: State) {
    Inv(s) && !s.undefined
  }

  lemma BeginsInformed(ops: seq<Op>, files: seq<string>)
    ensures MayBegin(ops, files) ==> (Informed(Begun(ops, files)) <==> Sane(Run(ops)))
  {
    if MayBegin(ops, files) {
      var s := Session(Run(ops), true, true);
      RunLists(ops);
      RunNoneEmpty(ops);
      if Sane(s) {
        StartInforms(s, files);
      } else {
        StartMendsNothing(s, files);
      }
    }
  }

  ghost predicate MayGoOn(s: State, ops: seq<Op>) {
    PossibleFrom(s, ops) && OrderedFrom(s, ops)
  }

  /** From the start of a session on, at every moment of every run, the last list sent for
      each file is exactly the lines of its enabled breakpoints, if and only if list and
      index agreed before the session, and each operation fits the state it meets. */
  lemma StaysInformed(ops: seq<Op>, files: seq<string>, more: seq<Op>)
    ensures MayBegin(ops, files) && MayGoOn(Begun(ops, files), more) ==>
              (AlwaysInformed(Begun(ops, files), more) <==> Sane(Run(ops)) && AlwaysFits(Begun(ops, files), more))
  {
    BeginsInformed(ops, files);
    if MayBegin(ops, files) && MayGoOn(Begun(ops, files), more) {
      if Sane(Run(ops)) {
        InformedStays(Begun(ops, files), more);
      } else if AlwaysInformed(Begun(ops, files), more) {
        WasInformed(Begun(ops, files), more);
      }
    }
  }

  // ---------- the store object runs it ----------

  /** What can be asked of a store; breakpoints are named by their place in its list. */
  datatype Action =
    | UpdateAt(file: string, line: int, enable: bool, id: int)
    | EnableNth(k: nat, enable: bool)
    | DeleteNth(k: nat)
    | DeleteEverything
    | ResetTo(reset: Reset)
    | Begin
    | ShiftFile(file: string, start: int, lines: int)
    | SetState(running: bool, stopped: bool)

  predicate Does(s: State, action: Action, op: Op) {
    match action
    case UpdateAt(file, line, enable, id) => op.DoUpdate? && op == DoUpdate(file, line, enable, id, op.bp)
    case EnableNth(k, enable) => if k < |s.list| then op == DoEnable(s.list[k], enable) else op == DoReset(Normal)
    case DeleteNth(k) => if k < |s.list| then op == DoDelete(s.list[k]) else op == DoReset(Normal)
    case DeleteEverything => op.DoDeleteAll?
    case ResetTo(reset) => op == DoReset(reset)
    case Begin => op.DoStart?
    case ShiftFile(file, start, lines) => op == DoShift(file, start, lines)
    case SetState(running, stopped) => op == DoSession(running, stopped)
  }

  method Act(store: Store, action: Action) returns (ghost op: Op)
    requires store.Shape() && NoDup(store.breakpoints)
    modifies store, store.Repr
    ensures store.Shape() && fresh(store.Repr - old(store.Repr))
    ensures Does(old(store.View()), action, op) && Possible(old(store.View()), op)
    ensures store.View() == Apply(old(store.View()), op)
  {
    match action {
      case UpdateAt(file, line, enable, id) =>
        var bp := store.UpdateOrAddBreakpoint(file, line, enable, id);
        op := DoUpdate(file, line, enable, id, bp);
      case EnableNth(_, _) => op := ActOnNth(store, action);
      case DeleteNth(_) => op := ActOnNth(store, action);
      case _ => op := ActOnAll(store, action);
    }
  }

  method ActOnNth(store: Store, action: Action) returns (ghost op: Op)
    requires store.Shape() && (action.EnableNth? || action.DeleteNth?)
    modifies store, store.Repr
    ensures store.Shape() && store.Repr == old(store.Repr)
    ensures Does(old(store.View()), action, op) && store.View() == Apply(old(store.View()), op)
  {
    op := DoReset(Normal);
    if action.k < |store.breakpoints| {
      var bp := store.breakpoints[action.k];
      if action.EnableNth? {
        op := DoEnable(bp, action.enable);
        store.EnableBreakpoint(bp, action.enable);
      } else {
        op := DoDelete(bp);
        store.DeleteBreakpoint(bp);
      }
    }
  }

  method ActOnAll(store: Store, action: Action) returns (ghost op: Op)
    requires store.Shape() && NoDup(store.breakpoints) && !action.UpdateAt? && !action.EnableNth? && !action.DeleteNth?
    modifies store, store.Repr
    ensures store.Shape() && store.Repr == old(store.Repr)
    ensures Does(old(store.View()), action, op) && store.View() == Apply(old(store.View()), op)
  {
    match action {
      case DeleteEverything =>
        ghost var files := store.DeleteAllBreakpoints();
        op := DoDeleteAll(files);
      case ResetTo(reset) =>
        op := DoReset(reset);
        store.DAPDebuggerResetData(reset);
      case Begin =>
        ghost var files := store.CreateStartBreakpoints();
        op := DoStart(files);
      case ShiftFile(file, start, lines) =>
        op := DoShift(file, start, lines);
        var _ := store.ShiftAllFileBreakpoints(file, start, lines);
      case SetState(running, stopped) =>
        op := DoSession(running, stopped);
        store.SetDebuggerState(running, stopped);
    }
  }

  /** The operations are what the actions ask for, each in the state it meets. */
  predicate Follows(ops: seq<Op>, actions: seq<Action>) {
    |ops| <= |actions| && forall i :: 0 <= i < |ops| ==> Does(Run(ops[..i]), actions[i], ops[i])
  }

  lemma FollowsMore(ops: seq<Op>, op: Op, actions: seq<Action>)
    requires Follows(ops, actions) && |ops| < |actions| && Does(Run(ops), actions[|ops|], op)
    ensures Follows(ops + [op], actions)
  {
    var more := ops + [op];
    forall i | 0 <= i < |more| ensures Does(Run(more[..i]), actions[i], more[i]) {
      assert more[..i] == ops[..i];
      assert i == |ops| ==> ops[..i] == ops;
    }
  }

  method DriveOn(store: Store, action: Action, ghost ops: seq<Op>) returns (ghost op: Op)
    requires store.Shape() && AllPossible(ops) && store.View() == Run(ops)
    modifies store, store.Repr
    ensures store.Shape() && fresh(store.Repr - old(store.Repr))
    ensures Does(Run(ops), action, op) && AllPossible(ops + [op]) && store.View() == Run(ops + [op])
  {
    RunLists(ops);
    UniqueObjects(store.breakpoints, store.Memory());
    op := Act(store, action);
    OneMore(ops, op);
  }

  /** A new store taken through any actions ends in the state of a run. */
  method Drive(projectOf: string -> int, actions: seq<Action>) returns (store: Store, ghost ops: seq<Op>)
    ensures fresh(store) && |ops| == |actions| && Follows(ops, actions)
    ensures AllPossible(ops) && store.View() == Run(ops)
  {
    store := new Store(projectOf);
    ops := [];
    var i := 0;
    while i < |actions|
      invariant 0 <= i <= |actions| && |ops| == i && fresh(store) && fresh(store.Repr) && store.Shape()
      invariant AllPossible(ops) && store.View() == Run(ops) && Follows(ops, actions)
    {
      ghost var op := DriveOn(store, actions[i], ops);
      FollowsMore(ops, op, actions);
      ops := ops + [op];
      i := i + 1;
    }
  }

  // ---------- runs that go wrong ----------

  lemma OneMore(ops: seq<Op>, op: Op)
    ensures Run(ops + [op]) == Apply(Run(ops), op)
    ensures AllPossible(ops + [op]) <==> AllPossible(ops) && Possible(Run(ops), op)
    ensures NeverCollides(ops + [op]) <==> NeverCollides(ops) && !Collides(Run(ops), op)
  {
    assert (ops + [op])[..|ops|] == ops;
  }

  lemma JustOne(op: Op)
    ensures Run([op]) == Apply(EMPTY, op)
    ensures AllPossible([op]) <==> Possible(EMPTY, op)
    ensures NeverCollides([op]) <==> !Collides(EMPTY, op)
  {
    OneMore([], op);
    assert [] + [op] == [op];
  }

  predicate IsNew(bp: Breakpoint, file: string) {
    bp.filename == file && bp.kind == Code
  }

  // Lines 8 and 5 of one file, in this order.

  function TwoLines(a: Breakpoint, b: Breakpoint): seq<Op> {
    [DoUpdate("a.c", 8, true, -1, a)] + [DoUpdate("a.c", 5, true, -1, b)]
  }

  function TwoLinesState(a: Breakpoint, b: Breakpoint): State {
    State([a, b], map["a.c" := [a, b]], map[a := Fields(8, -1, true), b := Fields(5, -1, true)],
          false, false, [], false)
  }

  lemma FirstLine(a: Breakpoint)
    requires IsNew(a, "a.c")
    ensures var ops := [DoUpdate("a.c", 8, true, -1, a)];
            && AllPossible(ops) && NeverCollides(ops)
            && Run(ops) == State([a], map["a.c" := [a]], map[a := Fields(8, -1, true)], false, false, [], false)
  {
    JustOne(DoUpdate("a.c", 8, true, -1, a));
    assert [] + [a] == [a];
  }

  lemma SecondLine(a: Breakpoint, b: Breakpoint)
    requires a != b && IsNew(a, "a.c") && IsNew(b, "a.c")
    ensures var s := State([a], map["a.c" := [a]], map[a := Fields(8, -1, true)], false, false, [], false);
            var op := DoUpdate("a.c", 5, true, -1, b);
            Possible(s, op) && Apply(s, op) == TwoLinesState(a, b)
  {
    assert [a][1..] == [] && [a] + [b] == [a, b];
  }

  lemma TwoLinesRun(a: Breakpoint, b: Breakpoint)
    requires a != b && IsNew(a, "a.c") && IsNew(b, "a.c")
    ensures AllPossible(TwoLines(a, b)) && NeverCollides(TwoLines(a, b))
    ensures Run(TwoLines(a, b)) == TwoLinesState(a, b) && Inv(TwoLinesState(a, b))
  {
    var first := [DoUpdate("a.c", 8, true, -1, a)];
    FirstLine(a);
    OneMore(first, DoUpdate("a.c", 5, true, -1, b));
    SecondLine(a, b);
    RunLists(TwoLines(a, b));
    RunKeeps(TwoLines(a, b));
  }

  /** Deleting lines 5 to 7 moves line 8 onto line 5: the breakpoint deleted there stays in
      the index, and the one that moved is lost from it. */
  lemma MovedOntoDeleted(a: Breakpoint, b: Breakpoint)
    requires a != b && IsNew(a, "a.c") && IsNew(b, "a.c")
    ensures var s := Run(TwoLines(a, b));
            var t := Shift(s, "a.c", 5, -3);
            Collides(s, DoShift("a.c", 5, -3)) && !Inv(t)
            && a in t.list && b !in t.list && b in Bucket(t.index, "a.c") && a !in Bucket(t.index, "a.c")
  {
    TwoLinesRun(a, b);
    EightOntoFive(a, b);
  }

  lemma EightOntoFive(a: Breakpoint, b: Breakpoint)
    requires a != b && IsNew(a, "a.c") && IsNew(b, "a.c") && Inv(TwoLinesState(a, b))
    ensures var s := TwoLinesState(a, b);
            var t := Shift(s, "a.c", 5, -3);
            Collides(s, DoShift("a.c", 5, -3)) && !Inv(t)
            && a in t.list && b !in t.list && b in Bucket(t.index, "a.c") && a !in Bucket(t.index, "a.c")
  {
    var s := TwoLinesState(a, b);
    var bucket := Bucket(s.index, "a.c");
    assert bucket[0] == a && bucket[1] == b;
    assert Moves(s.memory, bucket[0], "a.c", 5, -3) && Dies(s.memory, bucket[1], "a.c", 5, -3);
    StaleIff(s, "a.c", 5, -3, b);
    ConsistentIff(s, "a.c", 5, -3);
    ShiftList(s, "a.c", 5, -3);
    if a in Bucket(Shift(s, "a.c", 5, -3).index, "a.c") {
      BucketLinesDistinct(s, "a.c", 5, -3, a, b);
    }
  }

  // One breakpoint each in two files, in a session.

  function TwoFiles(a: Breakpoint, b: Breakpoint): seq<Op> {
    [DoSession(true, true)] + [DoUpdate("a.c", 1, true, 7, a)] + [DoUpdate("b.c", 1, true, -1, b)]
  }

  lemma EmptyIsInformed()
    ensures Informed(Session(EMPTY, true, true))
  {
    var s := Session(EMPTY, true, true);
    assert forall f :: Wanted(s.list, s.memory, f) == {};
  }

  lemma SessionRun()
    ensures var ops := [DoSession(true, true)];
            && AllPossible(ops) && Run(ops) == Session(EMPTY, true, true) && Informed(Run(ops))
  {
    JustOne(DoSession(true, true));
    EmptyIsInformed();
  }

  lemma FileRun(ops: seq<Op>, file: string, id: int, bp: Breakpoint)
    requires AllPossible(ops) && Informed(Run(ops)) && bp !in Run(ops).memory && IsNew(bp, file)
    requires forall b :: b in Run(ops).list ==> b.filename != file && (id != -1 ==> At(Run(ops).memory, b).id != id)
    ensures var s, more := Run(ops), ops + [DoUpdate(file, 1, true, id, bp)];
            && AllPossible(more) && Informed(Run(more)) && Run(more) == Insert(s, bp, Fields(1, id, true))
  {
    OneMore(ops, DoUpdate(file, 1, true, id, bp));
    FitsInforms(Run(ops), DoUpdate(file, 1, true, id, bp));
  }

  lemma TwoFilesRun(a: Breakpoint, b: Breakpoint)
    requires a != b && IsNew(a, "a.c") && IsNew(b, "b.c")
    ensures var s := Run(TwoFiles(a, b));
            && AllPossible(TwoFiles(a, b)) && Informed(s) && s.list == [a, b]
            && At(s.memory, a) == Fields(1, 7, true) && At(s.memory, b) == Fields(1, -1, true)
  {
    var begun := [DoSession(true, true)];
    SessionRun();
    FileRun(begun, "a.c", 7, a);
    FileRun(begun + [DoUpdate("a.c", 1, true, 7, a)], "b.c", -1, b);
    assert [] + [a] == [a] && [a] + [b] == [a, b];
  }

  /** Deleting the one file's breakpoint, or its line, makes the sender look the file up in
      vain. */
  lemma LastOfFile(a: Breakpoint, b: Breakpoint)
    requires a != b && IsNew(a, "a.c") && IsNew(b, "b.c")
    ensures var s := Run(TwoFiles(a, b));
            Informed(s) && !Keeps(s, a) && Delete(s, a).undefined && Shift(s, "a.c", 1, -1).undefined
  {
    var s := Run(TwoFiles(a, b));
    TwoFilesRun(a, b);
    assert Position(s.list, a) == 0 && Drop(s.list, 0) == [b];
    DeleteInStep(s, a);
    assert Dies(s.memory, a, "a.c", 1, -1);
    OneLineGone(s, a);
  }

  lemma OneLineGone(s: State, a: Breakpoint)
    requires Informed(s) && a in s.list && At(s.memory, a).line == 1 && a.filename == "a.c"
    requires exists b :: b in s.list && b.filename != "a.c"
    requires forall b :: b in s.list && b.filename == "a.c" ==> b == a
    ensures Shift(s, "a.c", 1, -1).undefined
  {
    assert Dies(s.memory, a, "a.c", 1, -1);
    if !Collides(s, DoShift("a.c", 1, -1)) {
      ShiftInStep(s, "a.c", 1, -1);
    }
  }

  /** A line put in above them moves both breakpoints of a file, and nothing is sent. */
  lemma LineInserted(a: Breakpoint, b: Breakpoint)
    requires a != b && IsNew(a, "a.c") && IsNew(b, "b.c")
    ensures var s := Run(TwoFiles(a, b));
            var t := Shift(s, "a.c", 1, 1);
            Informed(s) && !InStep(t) && At(t.memory, a).line == 2 && t.sent == s.sent
  {
    var s := Run(TwoFiles(a, b));
    TwoFilesRun(a, b);
    assert s.list[0] == a && Moves(s.memory, a, "a.c", 1, 1) && At(s.memory, a).enabled;
    assert EnabledMoves(s, "a.c", 1, 1) && !SomeDie(s, "a.c", 1, 1);
    MovedInStep(s, "a.c", 1, 1);
    MovedWanted(s, "a.c", 1, 1);
    ShiftList(s, "a.c", 1, 1);
  }

  /** An answer that names another file for a known id: the file it names is sent, and the
      breakpoint's own is not. */
  lemma OtherFileNamed(a: Breakpoint, b: Breakpoint, c: Breakpoint)
    requires a != b && IsNew(a, "a.c") && IsNew(b, "b.c")
    ensures var s := Enable(Run(TwoFiles(a, b)), a, false);
            Informed(s) && !InStep(UpdateOrAdd(s, "b.c", 3, true, 7, c))
  {
    var s := Run(TwoFiles(a, b));
    TwoFilesRun(a, b);
    EnableInforms(s, a, false);
    EnableEffect(s, a, false);
    var t := Enable(s, a, false);
    assert t.list[0] == a && FirstId(t.list, t.memory, 7) == 0;
    assert t.list[1] == b && b in Bucket(t.index, "b.c");
    UpdateInStep(t, "b.c", 3, true, 7, c);
  }
}
