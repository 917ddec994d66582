/** Adding a fetched variable to the watch that asked for it. */
module WatchTree {
  import opened DapMessages

  // ---------- trees as values ----------

  datatype Label = Label(requestSeq: int, symbol: string, value: string, kind: string, reference: int,
                         expanded: bool, rangeStart: int, rangeEnd: int)

  datatype Tree = Node(data: Label, children: seq<Tree>)

  function LabelOf(symbol: string): Label {
    Label(0, symbol, "", "", 0, false, -1, -1)
  }

  /** The watch made for a variable: with a placeholder below it if it has parts. */
  function ChildFor(v: Variable): Tree {
    var bare := LabelOf(if v.name == "" then "anonymous" else v.name)
                .(value := v.value, reference := v.variablesReference, kind := v.kind);
    if v.variablesReference > 0 then
      Node(bare.(rangeStart := 0, rangeEnd := v.variablesReference), [Node(LabelOf("updating..."), [])])
    else Node(bare, [])
  }

  /** Some node has asked with this number. */
  predicate Has(t: Tree, n: int) {
    t.data.requestSeq == n || exists i :: 0 <= i < |t.children| && Has(t.children[i], n)
  }

  /** The first child, from `i` on, below which some node has, or the number of children. */
  function FirstWith(t: Tree, n: int, i: nat): (j: nat)
    requires i <= |t.children|
    ensures i <= j <= |t.children|
    ensures j < |t.children| ==> Has(t.children[j], n)
    ensures forall k :: i <= k < j ==> !Has(t.children[k], n)
    decreases |t.children| - i
  {
    if i == |t.children| || Has(t.children[i], n) then i else FirstWith(t, n, i + 1)
  }

  function AddTo(t: Tree, n: int, child: Tree): Tree
    decreases t, 1
  {
    if t.data.requestSeq == n then t.(children := t.children + [child])
    else
      var j := FirstWith(t, n, 0);
      if j < |t.children| then AddToChild(t, j, n, child) else t
  }

  function AddToChild(t: Tree, j: nat, n: int, child: Tree): Tree
    decreases t, 0
  {
    if j < |t.children| then t.(children := t.children[j := AddTo(t.children[j], n, child)]) else t
  }

  // ---------- places in a tree ----------

  /** The way down from the root: which child, again and again. */
  type Path = seq<nat>

  predicate InTree(t: Tree, p: Path) {
    |p| == 0 || (p[0] < |t.children| && InTree(t.children[p[0]], p[1..]))
  }

  function At(t: Tree, p: Path): Tree
    requires InTree(t, p)
  {
    if |p| == 0 then t else At(t.children[p[0]], p[1..])
  }

  function Put(t: Tree, p: Path, node: Tree): Tree
    requires InTree(t, p)
  {
    if |p| == 0 then node else t.(children := t.children[p[0] := Put(t.children[p[0]], p[1..], node)])
  }

  /** `p` comes before `q` when parents are visited before their children, and those in order. */
  predicate Before(p: Path, q: Path) {
    |q| > 0 && (|p| == 0 || p[0] < q[0] || (p[0] == q[0] && Before(p[1..], q[1..])))
  }

  predicate Asks(t: Tree, p: Path, n: int) {
    InTree(t, p) && At(t, p).data.requestSeq == n
  }

  // ---------- what adding does ----------

  lemma {:induction false} HasIffAsks(t: Tree, n: int, p: Path)
    ensures Asks(t, p, n) ==> Has(t, n)
    decreases |p|
  {
    if |p| > 0 && p[0] < |t.children| {
      HasIffAsks(t.children[p[0]], n, p[1..]);
    }
  }

  lemma NothingAdded(t: Tree, n: int, child: Tree)
    requires !Has(t, n)
    ensures AddTo(t, n, child) == t
  {
  }

  /** If any node asked, the first of them in preorder gets the child as its last, and
      nothing else in the tree changes. */
  lemma {:induction false} AddsToFirst(t: Tree, n: int, child: Tree) returns (p: Path)
    requires Has(t, n)
    ensures Asks(t, p, n) && forall q :: Asks(t, q, n) ==> p == q || Before(p, q)
    ensures AddTo(t, n, child) == Put(t, p, At(t, p).(children := At(t, p).children + [child]))
    decreases t
  {
    if t.data.requestSeq == n {
      p := [];
    } else {
      var j := FirstWith(t, n, 0);
      var rest := AddsToFirst(t.children[j], n, child);
      p := [j] + rest;
      assert p[1..] == rest;
      forall q | Asks(t, q, n) ensures p == q || Before(p, q) {
        assert |q| > 0;
        HasIffAsks(t.children[q[0]], n, q[1..]);
        assert Asks(t.children[q[0]], q[1..], n);
        assert q == [q[0]] + q[1..];
      }
    }
  }

  /** Other places keep their labels, and their children's number. */
  lemma {:induction false} PutLeaves(t: Tree, p: Path, child: Tree, q: Path)
    requires InTree(t, p) && InTree(t, q)
    ensures var node := At(t, p).(children := At(t, p).children + [child]);
            var u := Put(t, p, node);
            InTree(u, q) && At(u, q).data == At(t, q).data
            && |At(u, q).children| == |At(t, q).children| + if p == q then 1 else 0
    decreases |p|
  {
    if |p| > 0 && |q| > 0 && p[0] == q[0] {
      PutLeaves(t.children[p[0]], p[1..], child, q[1..]);
      assert p == [p[0]] + p[1..] && q == [q[0]] + q[1..];
    }
  }

  // ---------- what is added ----------

  /** A watch that shows the variable: its own name, value, type and reference, and below it
      one empty placeholder, with the range set, exactly if it has parts. */
  predicate Shows(t: Tree, v: Variable) {
    && t.data.symbol == (if v.name == "" then "anonymous" else v.name)
    && t.data.value == v.value && t.data.kind == v.kind && t.data.reference == v.variablesReference
    && t.data.requestSeq == 0 && !t.data.expanded
    && (v.variablesReference > 0 ==>
          t.data.rangeStart == 0 && t.data.rangeEnd == v.variablesReference && |t.children| == 1
          && t.children[0].data.symbol == "updating..." && t.children[0].children == [])
    && (v.variablesReference <= 0 ==> t.data.rangeStart == t.data.rangeEnd == -1 && t.children == [])
  }

  /** The first watch that asked, in preorder. */
  ghost predicate AsksFirst(t: Tree, p: Path, n: int) {
    Asks(t, p, n) && forall q :: Asks(t, q, n) ==> p == q || Before(p, q)
  }

  /** The first watch that asked has one more child, its last, and that shows the variable. */
  ghost predicate Gained(t: Tree, u: Tree, n: int, v: Variable) {
    exists p :: AsksFirst(t, p, n) && InTree(u, p) && GainsAt(t, u, p, v)
  }

  ghost predicate GainsAt(t: Tree, u: Tree, p: Path, v: Variable)
    requires InTree(t, p) && InTree(u, p)
  {
    var before, after := At(t, p).children, At(u, p).children;
    && |after| == |before| + 1 && after[..|before|] == before && Shows(after[|before|], v)
    && u == Put(t, p, At(t, p).(children := after))
  }

  lemma AddedShows(t: Tree, n: int, v: Variable)
    requires Has(t, n)
    ensures Gained(t, AddTo(t, n, ChildFor(v)), n, v)
  {
    var u := AddTo(t, n, ChildFor(v));
    var p := AddsToFirst(t, n, ChildFor(v));
    PutAt(t, p, At(t, p).(children := At(t, p).children + [ChildFor(v)]));
    assert AsksFirst(t, p, n) && GainsAt(t, u, p, v);
  }

  // ---------- several children ----------

  function AddAll(t: Tree, n: int, children: seq<Tree>): Tree
    decreases |children|
  {
    if |children| == 0 then t else AddAll(AddTo(t, n, children[0]), n, children[1..])
  }

  lemma {:induction false} AddKeepsHas(t: Tree, n: int, child: Tree)
    ensures Has(t, n) ==> Has(AddTo(t, n, child), n)
    decreases t
  {
    var j := FirstWith(t, n, 0);
    if t.data.requestSeq != n && j < |t.children| {
      AddKeepsHas(t.children[j], n, child);
      assert AddTo(t, n, child) == AddToChild(t, j, n, child);
      assert AddTo(t, n, child).children[j] == AddTo(t.children[j], n, child);
    }
  }

  lemma FirstWithIs(t: Tree, n: int, i: nat, j: nat)
    requires i <= j < |t.children| && Has(t.children[j], n) && forall k :: i <= k < j ==> !Has(t.children[k], n)
    ensures FirstWith(t, n, i) == j
  {
  }

  /** One after the other they become the last children of one node, in order. */
  lemma {:induction false} AllInOrder(t: Tree, n: int, children: seq<Tree>) returns (p: Path)
    requires Has(t, n)
    ensures Asks(t, p, n) && forall q :: Asks(t, q, n) ==> p == q || Before(p, q)
    ensures AddAll(t, n, children) == Put(t, p, At(t, p).(children := At(t, p).children + children))
    decreases |children|
  {
    if |children| == 0 {
      p := AddsToFirst(t, n, Node(LabelOf(""), []));
      assert At(t, p).children + children == At(t, p).children;
      PutSame(t, p);
    } else {
      p := AddsToFirst(t, n, children[0]);
      var node := At(t, p).(children := At(t, p).children + [children[0]]);
      var u := AddTo(t, n, children[0]);
      AddKeepsHas(t, n, children[0]);
      var q := AllInOrder(u, n, children[1..]);
      PutAt(t, p, node);
      FirstStays(t, p, node, n, q);
      PutPut(t, p, node, node.(children := node.children + children[1..]));
      assert node.children + children[1..] == At(t, p).children + children;
    }
  }

  lemma {:induction false} PutSame(t: Tree, p: Path)
    requires InTree(t, p)
    ensures Put(t, p, At(t, p)) == t
    decreases |p|
  {
    if |p| > 0 {
      PutSame(t.children[p[0]], p[1..]);
    }
  }

  lemma {:induction false} PutAt(t: Tree, p: Path, node: Tree)
    requires InTree(t, p)
    ensures InTree(Put(t, p, node), p) && At(Put(t, p, node), p) == node
    decreases |p|
  {
    if |p| > 0 {
      PutAt(t.children[p[0]], p[1..], node);
    }
  }

  lemma {:induction false} PutPut(t: Tree, p: Path, a: Tree, b: Tree)
    requires InTree(t, p)
    ensures InTree(Put(t, p, a), p) && Put(Put(t, p, a), p, b) == Put(t, p, b)
    decreases |p|
  {
    if |p| > 0 {
      PutPut(t.children[p[0]], p[1..], a, b);
    }
  }

  /** A first place stays first when its node only gains children. */
  lemma FirstStays(t: Tree, p: Path, node: Tree, n: int, q: Path)
    requires Asks(t, p, n) && node.data.requestSeq == n
    requires forall r :: Asks(t, r, n) ==> p == r || Before(p, r)
    requires Asks(Put(t, p, node), q, n) && forall r :: Asks(Put(t, p, node), r, n) ==> q == r || Before(q, r)
    ensures p == q
  {
    PutAt(t, p, node);
    if p != q {
      assert Before(q, p);
      BeforeStays(t, p, node, q);
      assert Asks(t, q, n);
      NotBoth(p, q);
    }
  }

  lemma {:induction false} BeforeStays(t: Tree, p: Path, node: Tree, q: Path)
    requires InTree(t, p) && Before(q, p) && InTree(Put(t, p, node), q)
    ensures InTree(t, q) && At(t, q).data == At(Put(t, p, node), q).data
    decreases |p|
  {
    if |q| > 0 && q[0] == p[0] {
      BeforeStays(t.children[p[0]], p[1..], node, q[1..]);
    }
  }

  lemma {:induction false} NotBoth(p: Path, q: Path)
    ensures !(Before(p, q) && Before(q, p)) && !Before(p, p)
    decreases |p|
  {
    if |p| > 0 {
      NotBoth(p[1..], p[1..]);
      if |q| > 0 {
        NotBoth(p[1..], q[1..]);
      }
    }
  }

  // ---------- a response ----------

  /** The variable after the search has looked at it: named, if anything could be compared. */
  function Named(t: Tree, n: int, v: Variable): Variable {
    if v.name == "" && (t.data.requestSeq == n || |t.children| > 0) then v.(name := "anonymous") else v
  }

  /** The watch given the variable's contents and the response's number. */
  function Filled(data: Label, n: int, v: Variable): Label {
    data.(value := if v.value == "" then "\"\"" else v.value, kind := v.kind,
          reference := v.variablesReference, requestSeq := n)
  }

  /** A variable named like the watch is its value, and the answer it waits for. */
  function Marked(data: Label, n: int, v: Variable): Label {
    if data.symbol == v.name then Filled(data, n, v) else data
  }

  /** What a watch shows of a variable with its own name, and what is left of it otherwise. */
  lemma MarkedShows(data: Label, n: int, v: Variable)
    ensures var m := Marked(data, n, v);
            && m.symbol == data.symbol && m.expanded == data.expanded
            && m.rangeStart == data.rangeStart && m.rangeEnd == data.rangeEnd
            && (data.symbol != v.name ==> m == data)
            && (data.symbol == v.name ==>
                  && m.value == (if v.value == "" then "\"\"" else v.value) && m.kind == v.kind
                  && m.reference == v.variablesReference && m.requestSeq == n)
  {
  }

  function MarkedAll(data: Label, n: int, vs: seq<Variable>): Label
    decreases |vs|
  {
    if |vs| == 0 then data else MarkedAll(Marked(data, n, vs[0]), n, vs[1..])
  }

  /** What one watch does with one variable of response `n`. */
  function Check(t: Tree, n: int, v: Variable): Tree {
    var u := t.(data := Marked(t.data, n, v));
    if v.variablesReference != 0 then AddTo(u, n, ChildFor(v)) else u
  }

  function CheckedName(t: Tree, n: int, v: Variable): Variable {
    if v.variablesReference != 0 then Named(t.(data := Marked(t.data, n, v)), n, v) else v
  }

  /** Only variables with a reference are added: one child at the root if it has asked by
      then, none there otherwise. */
  lemma OnlyPartsAdd(t: Tree, n: int, v: Variable)
    ensures var u, asked := Check(t, n, v), t.data.requestSeq == n || t.data.symbol == v.name;
            && (v.variablesReference == 0 ==> u.children == t.children)
            && (v.variablesReference != 0 ==> |u.children| == |t.children| + if asked then 1 else 0)
            && (v.variablesReference != 0 && asked ==>
                  u.children[..|t.children|] == t.children && Shows(u.children[|t.children|], v))
            && (u.data.requestSeq == n <==> asked)
  {
    AddToRoot(t.(data := Marked(t.data, n, v)), n, ChildFor(v));
  }

  /** Of several variables with the watch's name it shows the last. */
  lemma {:induction false} LastNamedShows(data: Label, n: int, vs: seq<Variable>, k: nat)
    requires k <= |vs| && (k < |vs| ==> vs[k].name == data.symbol)
    requires forall i :: (k < i < |vs| || (k == |vs| && 0 <= i < k)) ==> vs[i].name != data.symbol
    ensures var m := MarkedAll(data, n, vs);
            if k == |vs| then m == data
            else
              && m.symbol == data.symbol && m.value == (if vs[k].value == "" then "\"\"" else vs[k].value)
              && m.kind == vs[k].kind && m.reference == vs[k].variablesReference && m.requestSeq == n
    decreases |vs|
  {
    if |vs| > 0 {
      var next := Marked(data, n, vs[0]);
      if k > 0 {
        LastNamedShows(next, n, vs[1..], k - 1);
      } else {
        LastNamedShows(next, n, vs[1..], |vs| - 1);
      }
    }
  }

  function CheckAll(t: Tree, n: int, vs: seq<Variable>): Tree
    decreases |vs|
  {
    if |vs| == 0 then t else CheckAll(Check(t, n, vs[0]), n, vs[1..])
  }

  function CheckedNames(t: Tree, n: int, vs: seq<Variable>): (names: seq<Variable>)
    ensures |names| == |vs|
    decreases |vs|
  {
    if |vs| == 0 then [] else [CheckedName(t, n, vs[0])] + CheckedNames(Check(t, n, vs[0]), n, vs[1..])
  }

  /** One watch after the other; each sees the names the ones before it have given. */
  function CheckEach(ts: seq<Tree>, n: int, vs: seq<Variable>): (us: seq<Tree>)
    ensures |us| == |ts|
    decreases |ts|
  {
    if |ts| == 0 then [] else [CheckAll(ts[0], n, vs)] + CheckEach(ts[1..], n, CheckedNames(ts[0], n, vs))
  }

  // ---------- where the variables go ----------

  /** The children made for the variables that have parts. */
  function ChildrenFor(vs: seq<Variable>): seq<Tree> {
    if |vs| == 0 then []
    else OneChild(vs[0]) + ChildrenFor(vs[1..])
  }

  function OneChild(v: Variable): seq<Tree> {
    if v.variablesReference != 0 then [ChildFor(v)] else []
  }

  /** The first variable with the name, or their number. */
  function FirstNamed(vs: seq<Variable>, name: string): (k: nat)
    ensures k <= |vs| && (k < |vs| ==> vs[k].name == name)
  {
    if |vs| == 0 || vs[0].name == name then 0 else 1 + FirstNamed(vs[1..], name)
  }

  /** A watch that itself asked takes all of them, in order. */
  lemma {:induction false} AskerTakesAll(t: Tree, n: int, vs: seq<Variable>)
    requires t.data.requestSeq == n
    ensures CheckAll(t, n, vs) == Node(MarkedAll(t.data, n, vs), t.children + ChildrenFor(vs))
    decreases |vs|
  {
    if |vs| > 0 {
      AskerTakesAll(Check(t, n, vs[0]), n, vs[1..]);
    }
  }

  /** What comes of a response. */
  function Outcome(t: Tree, n: int, before: seq<Variable>, after: seq<Variable>): Tree {
    var u := AddAll(t, n, ChildrenFor(before));
    if |after| == 0 then u else Node(MarkedAll(t.data, n, after), u.children + ChildrenFor(after))
  }

  lemma {:induction false} Divided(t: Tree, n: int, before: seq<Variable>, after: seq<Variable>)
    requires forall v :: v in before ==> v.name != t.data.symbol
    requires |after| > 0 ==> after[0].name == t.data.symbol
    ensures CheckAll(t, n, before + after) == Outcome(t, n, before, after)
    decreases |before|
  {
    if |before| > 0 {
      var v, rest := before[0], before[1..];
      var u := Check(t, n, v);
      assert (before + after)[0] == v && (before + after)[1..] == rest + after;
      assert before == [v] + rest;
      AddToData(t, n, ChildFor(v));
      Divided(u, n, rest, after);
      AddAllStep(t, n, v, rest);
    } else {
      assert before + after == after;
      if |after| > 0 {
        FirstMarks(t, n, after);
      }
    }
  }

  lemma FirstMarks(t: Tree, n: int, vs: seq<Variable>)
    requires |vs| > 0 && vs[0].name == t.data.symbol
    ensures CheckAll(t, n, vs) == Node(MarkedAll(t.data, n, vs), t.children + ChildrenFor(vs))
  {
    var u := Check(t, n, vs[0]);
    AskerTakesAll(u, n, vs[1..]);
    assert u.children == t.children + OneChild(vs[0]);
    assert u.children + ChildrenFor(vs[1..]) == t.children + (OneChild(vs[0]) + ChildrenFor(vs[1..]));
  }

  /** Up to the first variable with the watch's name they go to the first watch that asked,
      if one did; from there on to the watch itself. */
  lemma WhereTheyGo(t: Tree, n: int, vs: seq<Variable>)
    ensures var k := FirstNamed(vs, t.data.symbol);
            CheckAll(t, n, vs) == Outcome(t, n, vs[..k], vs[k..])
  {
    var k := FirstNamed(vs, t.data.symbol);
    NotNamed(vs, t.data.symbol);
    assert vs[..k] + vs[k..] == vs;
    Divided(t, n, vs[..k], vs[k..]);
  }

  lemma {:induction false} NotNamed(vs: seq<Variable>, name: string)
    ensures forall v :: v in vs[..FirstNamed(vs, name)] ==> v.name != name
  {
    var k := FirstNamed(vs, name);
    if k > 0 {
      NotNamed(vs[1..], name);
      assert vs[..k] == [vs[0]] + vs[1..][..k - 1];
    }
  }

  lemma AddToData(t: Tree, n: int, child: Tree)
    ensures AddTo(t, n, child).data == t.data
  {
  }

  lemma AddAllStep(t: Tree, n: int, v: Variable, vs: seq<Variable>)
    ensures AddAll(t, n, ChildrenFor([v] + vs))
         == AddAll(if v.variablesReference != 0 then AddTo(t, n, ChildFor(v)) else t, n, ChildrenFor(vs))
  {
    assert ([v] + vs)[1..] == vs;
    if v.variablesReference != 0 {
      var children := ChildrenFor([v] + vs);
      assert children == [ChildFor(v)] + ChildrenFor(vs);
      assert children[1..] == ChildrenFor(vs);
    } else {
      assert ChildrenFor([v] + vs) == [] + ChildrenFor(vs) == ChildrenFor(vs);
    }
  }

  /** `u` is `t`, but for the root's contents, with `children` as the last of the node at `p`. */
  predicate Under(t: Tree, u: Tree, p: Path, children: seq<Tree>) {
    var v := t.(data := u.data);
    InTree(v, p) && u == Put(v, p, At(v, p).(children := At(v, p).children + children))
  }

  lemma AddToRoot(t: Tree, n: int, child: Tree)
    ensures var u := AddTo(t, n, child);
            && u.data == t.data && |u.children| == |t.children| + (if t.data.requestSeq == n then 1 else 0)
            && (!Has(t, n) ==> u == t)
  {
    if !Has(t, n) {
      NothingAdded(t, n, child);
    }
  }

  lemma {:induction false} AddAllRoot(t: Tree, n: int, children: seq<Tree>)
    ensures var u := AddAll(t, n, children);
            && u.data == t.data && |u.children| == |t.children| + (if t.data.requestSeq == n then |children| else 0)
            && (!Has(t, n) ==> u == t)
    decreases |children|
  {
    if |children| > 0 {
      AddToRoot(t, n, children[0]);
      AddAllRoot(AddTo(t, n, children[0]), n, children[1..]);
    }
  }

  lemma {:induction false} ChildrenAppend(a: seq<Variable>, b: seq<Variable>, all: seq<Variable>)
    requires all == a + b
    ensures ChildrenFor(all) == ChildrenFor(a) + ChildrenFor(b)
  {
    if |a| == 0 {
      assert all == b;
    } else {
      ChildrenAppend(a[1..], b, all[1..]);
      assert all[0] == a[0];
      Regroup(OneChild(a[0]), ChildrenFor(a[1..]), ChildrenFor(b));
    }
  }

  lemma Regroup(a: seq<Tree>, b: seq<Tree>, c: seq<Tree>)
    ensures a + (b + c) == (a + b) + c
  {
  }

  /** Nothing goes under a node without changing it. */
  lemma UnderChanges(t: Tree, u: Tree, p: Path, children: seq<Tree>)
    requires Under(t, u, p, children) && |children| > 0
    ensures |p| == 0 ==> |u.children| == |t.children| + |children|
    ensures |p| > 0 ==> |u.children| == |t.children| && u.children != t.children
  {
    var v := t.(data := u.data);
    if |p| > 0 && u.children == t.children {
      PutAt(v, p, At(v, p).(children := At(v, p).children + children));
    }
  }

  /** All variables with parts come, in order, under one watch of the tree, if and only if
      those before the first with the watch's name are none, or the watch asked itself, or a
      watch below it asked and those from there on are none. */
  lemma UnderOneWatch(t: Tree, n: int, vs: seq<Variable>)
    ensures var k := FirstNamed(vs, t.data.symbol);
            (exists p :: Under(t, CheckAll(t, n, vs), p, ChildrenFor(vs)))
            <==> OneTakes(t, n, ChildrenFor(vs[..k]), ChildrenFor(vs[k..]))
  {
    var k, u := FirstNamed(vs, t.data.symbol), CheckAll(t, n, vs);
    WhereTheyGo(t, n, vs);
    ChildrenAppend(vs[..k], vs[k..], vs);
    OutcomeUnder(t, n, vs[..k], vs[k..]);
  }

  lemma OutcomeUnder(t: Tree, n: int, vs: seq<Variable>, ws: seq<Variable>)
    ensures (exists p :: Under(t, Outcome(t, n, vs, ws), p, ChildrenFor(vs) + ChildrenFor(ws)))
            <==> OneTakes(t, n, ChildrenFor(vs), ChildrenFor(ws))
  {
    var before, after, u := ChildrenFor(vs), ChildrenFor(ws), Outcome(t, n, vs, ws);
    AddAllRoot(t, n, before);
    if OneTakes(t, n, before, after) {
      var p;
      if before == [] || t.data.requestSeq == n {
        p := UnderRoot(t, n, vs, ws);
      } else {
        p := UnderAsker(t, n, vs, ws);
      }
      assert Under(t, u, p, before + after);
    } else {
      assert u.children == AddAll(t, n, before).children + after;
      forall p ensures !Under(t, u, p, before + after) {
        NotUnder(t, u, p, before, after);
      }
    }
  }

  predicate OneTakes(t: Tree, n: int, before: seq<Tree>, after: seq<Tree>) {
    before == [] || t.data.requestSeq == n || (Has(t, n) && after == [])
  }

  lemma UnderRoot(t: Tree, n: int, vs: seq<Variable>, ws: seq<Variable>) returns (p: Path)
    requires ChildrenFor(vs) == [] || t.data.requestSeq == n
    ensures Under(t, Outcome(t, n, vs, ws), p, ChildrenFor(vs) + ChildrenFor(ws))
  {
    p := [];
    var before, after := ChildrenFor(vs), ChildrenFor(ws);
    RootTakes(t, n, before);
    Regroup(t.children, before, after);
    RootUnder(t, Outcome(t, n, vs, ws), before + after);
  }

  lemma RootUnder(t: Tree, u: Tree, children: seq<Tree>)
    requires u.children == t.children + children
    ensures Under(t, u, [], children)
  {
  }

  lemma UnderAsker(t: Tree, n: int, vs: seq<Variable>, ws: seq<Variable>) returns (p: Path)
    requires Has(t, n) && t.data.requestSeq != n && ChildrenFor(ws) == []
    ensures Under(t, Outcome(t, n, vs, ws), p, ChildrenFor(vs) + ChildrenFor(ws))
  {
    var before, u := ChildrenFor(vs), Outcome(t, n, vs, ws);
    p := AllInOrder(t, n, before);
    assert before + ChildrenFor(ws) == before;
    MarkedRoot(t, u.data, p, before);
    AddAllRoot(t, n, before);
    assert u.children == AddAll(t, n, before).children;
  }

  lemma NotUnder(t: Tree, u: Tree, p: Path, before: seq<Tree>, after: seq<Tree>)
    requires |before| > 0 && |u.children| == |t.children| + |after|
    requires after == [] ==> u.children == t.children
    ensures !Under(t, u, p, before + after)
  {
    if Under(t, u, p, before + after) {
      UnderChanges(t, u, p, before + after);
    }
  }

  lemma {:induction false} RootTakes(t: Tree, n: int, children: seq<Tree>)
    requires children == [] || t.data.requestSeq == n
    ensures AddAll(t, n, children) == t.(children := t.children + children)
    decreases |children|
  {
    if |children| > 0 {
      RootTakes(AddTo(t, n, children[0]), n, children[1..]);
      assert t.children + children == (t.children + [children[0]]) + children[1..];
    } else {
      assert t.children + children == t.children;
    }
  }

  /** Below the root the root's contents make no difference. */
  lemma MarkedRoot(t: Tree, data: Label, p: Path, children: seq<Tree>)
    requires InTree(t, p) && |p| > 0
    ensures var u, v := Put(t, p, At(t, p).(children := At(t, p).children + children)), t.(data := data);
            InTree(v, p) && Put(v, p, At(v, p).(children := At(v, p).children + children)) == Node(data, u.children)
  {
  }

  /** A response whose variables come under two watches: the child waits for 7, the watch
      "s" itself is answered in the middle. */
  lemma TwoWatches(s: Label, c: Label, x: Variable, y: Variable, z: Variable)
    requires s.symbol == "s" && s.requestSeq != 7 && c.requestSeq == 7
    requires x.name != "s" && y.name == "s" && z.name != "s"
    requires x.variablesReference != 0 && y.variablesReference != 0 && z.variablesReference != 0
    ensures var t, vs := Node(s, [Node(c, [])]), [x, y, z];
            && CheckAll(t, 7, vs) == Node(Marked(s, 7, y), [Node(c, [ChildFor(x)]), ChildFor(y), ChildFor(z)])
            && !exists p :: Under(t, CheckAll(t, 7, vs), p, ChildrenFor(vs))
  {
    var t, vs := Node(s, [Node(c, [])]), [x, y, z];
    assert vs[1..] == [y, z] && vs[1..][1..] == [z] && [z][1..] == [];
    assert Has(t.children[0], 7);
    FirstWithIs(t, 7, 0, 0);
    assert [] + [ChildFor(x)] == [ChildFor(x)];
    assert AddTo(Node(c, []), 7, ChildFor(x)) == Node(c, [ChildFor(x)]);
    assert t.children[0 := Node(c, [ChildFor(x)])] == [Node(c, [ChildFor(x)])];
    assert Marked(s, 7, x) == s && t.(data := s) == t;
    assert AddTo(t, 7, ChildFor(x)) == AddToChild(t, 0, 7, ChildFor(x));
    assert Check(t, 7, x) == Node(s, [Node(c, [ChildFor(x)])]);
    assert vs[..1] == [x] && [x][1..] == [];
    assert ChildrenFor([z]) == [ChildFor(z)] && [y, z][1..] == [z];
    assert ChildrenFor([y, z]) == [ChildFor(y), ChildFor(z)];
    AskerAfter(t, 7, x, y, z, Node(s, [Node(c, [ChildFor(x)])]));
    assert [Node(c, [ChildFor(x)])] + [ChildFor(y), ChildFor(z)] == [Node(c, [ChildFor(x)]), ChildFor(y), ChildFor(z)];
    assert FirstNamed(vs, "s") == 1 && vs[1..] == [y, z] && ChildrenFor([x]) == [ChildFor(x)];
    UnderOneWatch(t, 7, vs);
  }

  lemma AskerAfter(t: Tree, n: int, x: Variable, y: Variable, z: Variable, u: Tree)
    requires Check(t, n, x) == u && u.data.symbol == y.name && u.data.symbol != z.name
    ensures CheckAll(t, n, [x, y, z]) == Node(Marked(u.data, n, y), u.children + ChildrenFor([y, z]))
  {
    assert [x, y, z][1..] == [y, z] && [y, z][1..] == [z] && [z][1..] == [];
    AskerTakesAll(u.(data := Marked(u.data, n, y)), n, [y, z]);
    assert Check(u, n, y) == Check(u.(data := Marked(u.data, n, y)), n, y);
    var m := Marked(u.data, n, y);
    assert Marked(m, n, y) == m && Marked(m, n, z) == m;
    assert MarkedAll(m, n, [y, z]) == MarkedAll(m, n, [z]) == MarkedAll(m, n, []) == m;
  }

  // ---------- one watch after another ----------

  predicate IsAnonymous(symbol: string) {
    symbol == "" || symbol == "anonymous"
  }

  /** A name that an earlier watch `t` gives to a variable changes what a later watch `u`
      does with it, if and only if the variable has no name but parts, `t` has asked for the
      response or has children, and `u` is itself without a name, or called "anonymous", and
      does not have the variable's contents yet. */
  lemma NameChangesLater(t: Tree, u: Tree, n: int, v: Variable)
    ensures Check(u, n, CheckedName(t, n, v)) != Check(u, n, v)
            <==> v.name == "" && v.variablesReference != 0
                 && (Marked(t.data, n, v).requestSeq == n || |t.children| > 0)
                 && IsAnonymous(u.data.symbol) && Filled(u.data, n, v) != u.data
  {
    var w := CheckedName(t, n, v);
    AddToData(u.(data := Marked(u.data, n, v)), n, ChildFor(v));
    AddToData(u.(data := Marked(u.data, n, w)), n, ChildFor(w));
    assert ChildFor(w) == ChildFor(v) && Filled(u.data, n, w) == Filled(u.data, n, v);
  }

  /** `ws` are `vs`, some of which have been given a name. */
  predicate GivenNames(vs: seq<Variable>, ws: seq<Variable>) {
    |vs| == |ws| && forall i :: 0 <= i < |vs| ==>
      ws[i] == vs[i] || (vs[i].name == "" && ws[i] == vs[i].(name := "anonymous"))
  }

  lemma {:induction false} CheckedNamesAreGiven(t: Tree, n: int, vs: seq<Variable>)
    ensures GivenNames(vs, CheckedNames(t, n, vs))
    decreases |vs|
  {
    if |vs| > 0 {
      CheckedNamesAreGiven(Check(t, n, vs[0]), n, vs[1..]);
    }
  }

  lemma {:induction false} NamesMakeNoDifference(t: Tree, n: int, vs: seq<Variable>, ws: seq<Variable>)
    requires GivenNames(vs, ws) && !IsAnonymous(t.data.symbol)
    ensures CheckAll(t, n, ws) == CheckAll(t, n, vs)
    decreases |vs|
  {
    if |vs| > 0 {
      AddToData(t.(data := Marked(t.data, n, vs[0])), n, ChildFor(vs[0]));
      assert ChildFor(ws[0]) == ChildFor(vs[0]) && Check(t, n, ws[0]) == Check(t, n, vs[0]);
      NamesMakeNoDifference(Check(t, n, vs[0]), n, vs[1..], ws[1..]);
    }
  }

  lemma {:induction false} EachTakes(ts: seq<Tree>, n: int, vs: seq<Variable>, ws: seq<Variable>, i: nat)
    requires i < |ts| && GivenNames(vs, ws) && forall t :: t in ts ==> !IsAnonymous(t.data.symbol)
    ensures CheckEach(ts, n, ws)[i] == CheckAll(ts[i], n, vs)
    decreases |ts|
  {
    assert ts[0] in ts;
    NamesMakeNoDifference(ts[0], n, vs, ws);
    CheckedNamesAreGiven(ts[0], n, ws);
    if i > 0 {
      EachTakes(ts[1..], n, vs, CheckedNames(ts[0], n, ws), i - 1);
    }
  }

  /** Watches with names of their own do not disturb each other: each does with a response
      what it would do alone. */
  lemma EachOnItsOwn(ts: seq<Tree>, n: int, vs: seq<Variable>)
    requires forall i :: 0 < i < |ts| ==> !IsAnonymous(ts[i].data.symbol)
    ensures forall i :: 0 <= i < |ts| ==> CheckEach(ts, n, vs)[i] == CheckAll(ts[i], n, vs)
  {
    forall i | 0 < i < |ts| ensures CheckEach(ts, n, vs)[i] == CheckAll(ts[i], n, vs) {
      CheckedNamesAreGiven(ts[0], n, vs);
      assert forall j :: 0 <= j < |ts[1..]| ==> ts[1..][j] == ts[j + 1];
      EachTakes(ts[1..], n, vs, CheckedNames(ts[0], n, vs), i - 1);
    }
  }

  // ---------- the watches ----------

  class Watch {
    var requestSeq: int
    var symbol: string
    var value: string
    var kind: string
    var reference: int
    var expanded: bool
    var rangeStart: int
    var rangeEnd: int
    var children: seq<Watch>
    ghost var Repr: set<Watch>

    ghost predicate Valid()
      reads this, Repr
      decreases Repr
    {
      && this in Repr
      && (forall c :: c in children ==> c in Repr && c.Repr <= Repr && this !in c.Repr && c.Valid())
      && (forall i, j :: 0 <= i < j < |children| ==> children[i].Repr !! children[j].Repr)
    }

    ghost function Content(): Label
      reads this
    {
      Label(requestSeq, symbol, value, kind, reference, expanded, rangeStart, rangeEnd)
    }

    ghost function View(): Tree
      requires Valid()
      reads this, Repr
      decreases Repr, |children| + 1
    {
      Node(Content(), Views(|children|))
    }

    ghost function Views(n: nat): (ts: seq<Tree>)
      requires Valid() && n <= |children|
      reads this, Repr
      ensures |ts| == n && forall i :: 0 <= i < n ==> ts[i] == children[i].View()
      decreases Repr, n
    {
      if n == 0 then [] else Views(n - 1) + [children[n - 1].View()]
    }

    constructor (symbol: string)
      ensures Valid() && Repr == {this} && View() == Node(LabelOf(symbol), []) && children == []
    {
      this.symbol := symbol;
      requestSeq, value, kind, reference, expanded, rangeStart, rangeEnd := 0, "", "", 0, false, -1, -1;
      children := [];
      Repr := {this};
    }

    method AddChild(child: Watch)
      requires Valid() && child.Valid() && Repr !! child.Repr
      modifies this`children, this`Repr
      ensures Valid() && Repr == old(Repr) + child.Repr
      ensures View() == old(View()).(children := old(View()).children + [old(child.View())])
    {
      children := children + [child];
      Repr := Repr + child.Repr;
    }
  }

  method MakeChild(v: Variable) returns (child: Watch)
    ensures fresh(child.Repr) && child.Valid() && child.View() == ChildFor(v) && Shows(child.View(), v)
    ensures child.symbol == (if v.name == "" then "anonymous" else v.name) && child.value == v.value
    ensures child.kind == v.kind && child.reference == v.variablesReference
    ensures |child.children| == if v.variablesReference > 0 then 1 else 0
  {
    child := new Watch(if v.name == "" then "anonymous" else v.name);
    child.value, child.reference, child.kind := v.value, v.variablesReference, v.kind;
    if v.variablesReference > 0 {
      Expect(child, v.variablesReference);
    }
  }

  /** A range, and a placeholder for what is in it. */
  method Expect(w: Watch, range: int)
    requires w.Valid() && w.children == []
    modifies w`expanded, w`rangeStart, w`rangeEnd, w`children, w`Repr
    ensures w.Valid() && fresh(w.Repr - old(w.Repr))
    ensures var data := old(w.Content()).(expanded := false, rangeStart := 0, rangeEnd := range);
            w.View() == Node(data, [Node(LabelOf("updating..."), [])])
  {
    w.expanded := false;
    w.rangeStart, w.rangeEnd := 0, range;
    var placeholder := new Watch("updating...");
    w.AddChild(placeholder);
  }

  /** `named` is what the caller's variable has become: the search names it if it has no name. */
  method AddWatchChildByRequestSequence(w: Watch, n: int, v: Variable) returns (found: bool, named: Variable)
    requires w.Valid()
    modifies w.Repr
    ensures named == Named(old(w.View()), n, v)
    ensures w.Valid() && old(w.Repr) <= w.Repr && fresh(w.Repr - old(w.Repr))
    ensures found == Has(old(w.View()), n) && (!found ==> w.Repr == old(w.Repr))
    ensures w.View() == AddTo(old(w.View()), n, ChildFor(v))
    ensures if found then Gained(old(w.View()), w.View(), n, v) else w.View() == old(w.View())
    decreases w.Repr, 4
  {
    ghost var t := w.View();
    named := v;
    if w.requestSeq == n || |w.children| > 0 {
      if named.name == "" {
        named := named.(name := "anonymous");
      }
    }
    if w.requestSeq == n {
      AddHere(w, named);
      found := true;
    } else {
      found := SearchChildren(w, n, named);
    }
    if found {
      AddedShows(t, n, v);
    } else {
      NothingAdded(t, n, ChildFor(v));
    }
  }

  /** The loop over the children. */
  method SearchChildren(w: Watch, n: int, v: Variable) returns (found: bool)
    requires w.Valid() && w.requestSeq != n
    modifies w.Repr
    ensures w.Valid() && old(w.Repr) <= w.Repr && fresh(w.Repr - old(w.Repr))
    ensures found == Has(old(w.View()), n) && (!found ==> w.Repr == old(w.Repr))
    ensures w.View() == AddTo(old(w.View()), n, ChildFor(v))
    decreases w.Repr, 3
  {
    ghost var t := w.View();
    found := false;
    var i := 0;
    while i < |w.children| && !found
      invariant 0 <= i <= |t.children| && w.Valid() && old(w.Repr) <= w.Repr && fresh(w.Repr - old(w.Repr))
      invariant if found then Has(t, n) && w.View() == AddTo(t, n, ChildFor(v))
                else w.View() == t && w.Repr == old(w.Repr) && forall k :: 0 <= k < i ==> !Has(t.children[k], n)
      decreases |t.children| - i
    {
      found := LookBelow(w, i, n, v, t);
      i := i + 1;
    }
    if !found {
      NothingAdded(t, n, ChildFor(v));
    }
  }

  method LookBelow(w: Watch, i: nat, n: int, v: Variable, ghost t: Tree) returns (found: bool)
    requires w.Valid() && w.View() == t && t.data.requestSeq != n
    requires i < |w.children| && forall k :: 0 <= k < i ==> !Has(t.children[k], n)
    modifies w.Repr
    ensures w.Valid() && old(w.Repr) <= w.Repr && fresh(w.Repr - old(w.Repr)) && (!found ==> w.Repr == old(w.Repr))
    ensures found == Has(t.children[i], n) && w.View() == if found then AddTo(t, n, ChildFor(v)) else t
    decreases w.Repr, 2
  {
    found := AddBelow(w, i, n, v);
    if found {
      FirstWithIs(t, n, 0, i);
    } else {
      NothingBelow(t, i, n, ChildFor(v));
    }
  }

  lemma NothingBelow(t: Tree, i: nat, n: int, child: Tree)
    requires i < |t.children| && !Has(t.children[i], n)
    ensures AddToChild(t, i, n, child) == t
  {
    NothingAdded(t.children[i], n, child);
    assert t.children[i := t.children[i]] == t.children;
  }

  method AddHere(w: Watch, v: Variable)
    requires w.Valid()
    modifies w`children, w`Repr
    ensures w.Valid() && old(w.Repr) <= w.Repr && fresh(w.Repr - old(w.Repr))
    ensures w.View() == old(w.View()).(children := old(w.View()).children + [ChildFor(v)])
  {
    var child := MakeChild(v);
    w.AddChild(child);
  }

  /** The search below one child. */
  method AddBelow(w: Watch, i: nat, n: int, v: Variable) returns (found: bool)
    requires w.Valid() && i < |w.children|
    modifies w.Repr
    ensures w.Valid() && old(w.Repr) <= w.Repr && fresh(w.Repr - old(w.Repr)) && (!found ==> w.Repr == old(w.Repr))
    ensures found == old(Has(w.children[i].View(), n))
    ensures w.View() == AddToChild(old(w.View()), i, n, ChildFor(v))
    decreases w.Repr, 1
  {
    ghost var views := w.View().children;
    found := Descend(w, i, n, v);
    Regrow(w, i, views[i := w.children[i].View()]);
  }

  /** The other children, and what they hold, stay as they are. */
  method Descend(w: Watch, i: nat, n: int, v: Variable) returns (found: bool)
    requires w.Valid() && i < |w.children|
    modifies w.children[i].Repr
    ensures var c := w.children[i];
            && c.Valid() && c.View() == AddTo(old(c.View()), n, ChildFor(v)) && found == Has(old(c.View()), n)
            && old(c.Repr) <= c.Repr && fresh(c.Repr - old(c.Repr)) && (!found ==> c.Repr == old(c.Repr))
    ensures forall k :: 0 <= k < |w.children| && k != i ==>
              var d := w.children[k]; d.Repr == old(d.Repr) && d.Valid() && d.View() == old(d.View())
    decreases w.Repr, 0
  {
    ghost var c, cs := w.children[i], w.children;
    assert c in cs && forall k :: 0 <= k < |cs| && k != i ==> cs[k] in cs && cs[k].Repr !! c.Repr;
    var named;
    found, named := AddWatchChildByRequestSequence(w.children[i], n, v);
  }

  /** Takes in what has been added below child `i`. */
  ghost method Regrow(w: Watch, i: nat, views: seq<Tree>)
    requires i < |w.children| && |views| == |w.children| && w in w.Repr
    requires forall k :: 0 <= k < |views| ==>
               w.children[k] in w.Repr && w !in w.children[k].Repr && w.children[k].Valid()
               && w.children[k].View() == views[k] && (k != i ==> w.children[k].Repr <= w.Repr)
    requires forall j, k :: 0 <= j < k < |w.children| ==> w.children[j].Repr !! w.children[k].Repr
    modifies w`Repr
    ensures w.Valid() && w.View() == Node(w.Content(), views) && w.Repr == old(w.Repr) + w.children[i].Repr
  {
    w.Repr := w.Repr + w.children[i].Repr;
    assert w.Valid();
    assert w.View().children == views;
  }

  /** The body of the inner loop: one watch and one variable. */
  method CheckVariable(w: Watch, n: int, v: Variable) returns (named: Variable)
    requires w.Valid()
    modifies w.Repr
    ensures w.Valid() && old(w.Repr) <= w.Repr && fresh(w.Repr - old(w.Repr))
    ensures w.View() == Check(old(w.View()), n, v) && named == CheckedName(old(w.View()), n, v)
  {
    MarkWatch(w, n, v);
    named := v;
    if v.variablesReference != 0 {
      var found;
      found, named := AddWatchChildByRequestSequence(w, n, v);
    }
  }

  method MarkWatch(w: Watch, n: int, v: Variable)
    requires w.Valid()
    modifies w`value, w`kind, w`reference, w`requestSeq
    ensures w.Valid() && w.View() == old(w.View()).(data := Marked(old(w.View()).data, n, v))
    ensures w.symbol == v.name ==>
              && w.value == (if v.value == "" then "\"\"" else v.value) && w.kind == v.kind
              && w.reference == v.variablesReference && w.requestSeq == n
  {
    ghost var views := w.View().children;
    if w.symbol == v.name {
      w.value := if v.value == "" then "\"\"" else v.value;
      w.kind := v.kind;
      w.reference := v.variablesReference;
      w.requestSeq := n;
    }
    assert w.Valid();
    assert w.View().children == views;
  }

  /** The inner loop: one watch and the variables of a response, which it may name. */
  method CheckVariables(w: Watch, n: int, variables: seq<Variable>) returns (named: seq<Variable>)
    requires w.Valid()
    modifies w.Repr
    ensures w.Valid() && old(w.Repr) <= w.Repr && fresh(w.Repr - old(w.Repr))
    ensures w.View() == CheckAll(old(w.View()), n, variables)
    ensures named == CheckedNames(old(w.View()), n, variables)
  {
    named := [];
    var i := 0;
    assert variables[0..] == variables;
    while i < |variables|
      invariant 0 <= i <= |variables| && w.Valid() && old(w.Repr) <= w.Repr && fresh(w.Repr - old(w.Repr))
      invariant CheckAll(w.View(), n, variables[i..]) == CheckAll(old(w.View()), n, variables)
      invariant named + CheckedNames(w.View(), n, variables[i..]) == CheckedNames(old(w.View()), n, variables)
    {
      assert variables[i..][0] == variables[i] && variables[i..][1..] == variables[i + 1..];
      var v := CheckVariable(w, n, variables[i]);
      named := named + [v];
      i := i + 1;
    }
  }

  ghost predicate AllApart(ws: seq<Watch>)
    reads ws, set k, x | 0 <= k < |ws| && x in ws[k].Repr :: x
  {
    && (forall k :: 0 <= k < |ws| ==> ws[k].Valid())
    && (forall j, k :: 0 <= j < k < |ws| ==> ws[j].Repr !! ws[k].Repr)
  }

  /** The watches show the trees. */
  ghost predicate Show(ws: seq<Watch>, ts: seq<Tree>)
    requires AllApart(ws)
    reads ws, set k, x | 0 <= k < |ws| && x in ws[k].Repr :: x
  {
    |ws| == |ts| && forall k :: 0 <= k < |ws| ==> ws[k].View() == ts[k]
  }

  /** The body of the outer loop; the other watches stay as they are. */
  method CheckNth(ws: seq<Watch>, i: nat, n: int, variables: seq<Variable>, ghost views: seq<Tree>)
      returns (named: seq<Variable>)
    requires AllApart(ws) && Show(ws, views) && i < |ws|
    modifies ws[i].Repr
    ensures AllApart(ws) && Show(ws, views[i := CheckAll(views[i], n, variables)])
    ensures named == CheckedNames(views[i], n, variables)
    ensures fresh(ws[i].Repr - old(ws[i].Repr)) && old(ws[i].Repr) <= ws[i].Repr
    ensures forall k :: 0 <= k < |ws| && k != i ==> ws[k].Repr == old(ws[k].Repr)
  {
    ghost var inside := ws[i].Repr;
    assert forall k :: 0 <= k < |ws| && k != i ==> ws[k].Repr !! inside;
    named := CheckVariables(ws[i], n, variables);
    assert forall k :: 0 <= k < |ws| && k != i ==>
             ws[k].Repr == old(ws[k].Repr) && ws[k].Valid() && ws[k].View() == views[k];
  }

  /** `OnVariablesCheck`: one watch after the other looks at the response. */
  method OnVariablesCheck(ws: seq<Watch>, n: int, variables: seq<Variable>, ghost ts: seq<Tree>)
    requires AllApart(ws) && Show(ws, ts)
    modifies set k, x | 0 <= k < |ws| && x in ws[k].Repr :: x
    ensures AllApart(ws) && Show(ws, CheckEach(ts, n, variables))
  {
    var named, i := variables, 0;
    ghost var views := ts;
    assert ts[0..] == ts && [] + CheckEach(ts, n, variables) == CheckEach(ts, n, variables);
    while i < |ws|
      invariant 0 <= i <= |ws| && AllApart(ws) && Show(ws, views)
      invariant forall k :: 0 <= k < |ws| ==> fresh(ws[k].Repr - old(ws[k].Repr))
      invariant views[i..] == ts[i..] && views[..i] + CheckEach(ts[i..], n, named) == CheckEach(ts, n, variables)
    {
      EachStep(views, ts, i, n, named);
      named := CheckNth(ws, i, n, named, views);
      views := views[i := CheckEach(ts, n, variables)[i]];
      i := i + 1;
    }
    assert views[..i] + [] == views;
  }

  lemma EachStep(views: seq<Tree>, ts: seq<Tree>, i: nat, n: int, vs: seq<Variable>)
    requires i < |ts| == |views| && views[i..] == ts[i..]
    ensures var u, next := CheckAll(views[i], n, vs), CheckedNames(views[i], n, vs);
            var after := views[i := u];
            && views[..i] + CheckEach(ts[i..], n, vs) == after[..i + 1] + CheckEach(ts[i + 1..], n, next)
            && (views[..i] + CheckEach(ts[i..], n, vs))[i] == u && after[i + 1..] == ts[i + 1..]
  {
    assert ts[i..][0] == views[i] && ts[i..][1..] == ts[i + 1..];
    var after := views[i := CheckAll(views[i], n, vs)];
    assert after[..i + 1] == views[..i] + [CheckAll(views[i], n, vs)];
    assert after[i + 1..] == views[i..][1..];
  }
}
