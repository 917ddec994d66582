/** Making a directory relative to another, on systems with one root. */
module RelativePath {
  import opened TextUtils

  // ---------- slashes and quotes ----------

  function Slashes(s: string): string {
    seq(|s|, i requires 0 <= i < |s| => if s[i] == '\\' then '/' else s[i])
  }

  /** One pass of replacing two slashes by one, from the left. */
  function ReplaceDouble(s: string): string {
    if |s| < 2 then s
    else if s[0] == '/' && s[1] == '/' then "/" + ReplaceDouble(s[2..])
    else [s[0]] + ReplaceDouble(s[1..])
  }

  /** Each run of slashes as one. */
  function Collapse(s: string): string {
    if |s| < 2 then s
    else if s[0] == '/' && s[1] == '/' then Collapse(s[1..])
    else [s[0]] + Collapse(s[1..])
  }

  predicate NoDouble(s: string) {
    forall i :: 0 < i < |s| && s[i] == '/' ==> s[i - 1] != '/'
  }

  function Quoted(s: string): string {
    if ' ' in s && s[0] != '"' then "\"" + s + "\"" else s
  }

  function Friendly(s: string): string {
    Quoted(Collapse(Slashes(s)))
  }

  lemma {:induction false} CollapseReplaced(s: string)
    ensures Collapse(ReplaceDouble(s)) == Collapse(s)
    ensures |s| > 0 ==> |ReplaceDouble(s)| > 0 && ReplaceDouble(s)[0] == s[0]
    ensures |ReplaceDouble(s)| <= |s| && (|ReplaceDouble(s)| == |s| ==> NoDouble(s))
  {
    if |s| >= 2 {
      CollapseReplaced(s[1..]);
      if s[0] == '/' && s[1] == '/' {
        CollapseReplaced(s[2..]);
        SlashBefore(s[2..], ReplaceDouble(s[2..]));
        assert s == "/" + ("/" + s[2..]) && s[1..] == "/" + s[2..];
      } else {
        var rest := ReplaceDouble(s[1..]);
        assert ([s[0]] + rest)[1..] == rest;
        if |rest| == |s| - 1 {
          forall i | 0 < i < |s| && s[i] == '/' ensures s[i - 1] != '/' {
            if i > 1 {
              assert s[1..][i - 1] == s[i] && s[1..][i - 2] == s[i - 1];
            }
          }
        }
      }
    }
  }

  lemma SlashBefore(a: string, b: string)
    requires Collapse(a) == Collapse(b) && (|a| > 0 ==> |b| > 0 && b[0] == a[0]) && (|a| == 0 ==> |b| == 0)
    ensures Collapse("/" + b) == Collapse("/" + a)
  {
    assert ("/" + a)[1..] == a && ("/" + b)[1..] == b;
  }

  lemma {:induction false} CollapseSingle(s: string)
    requires NoDouble(s)
    ensures Collapse(s) == s
  {
    if |s| >= 2 {
      assert forall i :: 0 < i < |s| - 1 ==> s[1..][i] == s[i + 1] && s[1..][i - 1] == s[i];
      CollapseSingle(s[1..]);
    }
  }

  method ConvertToDAPFriendly(s: string) returns (r: string)
    ensures r == Friendly(s)
  {
    r := s;
    if r == "" {
      return;
    }
    while '\\' in r
      invariant Slashes(r) == Slashes(s)
      decreases '\\' in r
    {
      r := Slashes(r);
    }
    assert r == Slashes(s);
    while ReplaceDouble(r) != r
      invariant Collapse(r) == Collapse(Slashes(s))
      decreases |r|
    {
      CollapseReplaced(r);
      if |ReplaceDouble(r)| == |r| {
        ReplaceSingle(r);
      }
      r := ReplaceDouble(r);
    }
    CollapseReplaced(r);
    CollapseSingle(r);
    if ' ' in r && r[0] != '"' {
      r := "\"" + r + "\"";
    }
  }

  lemma {:induction false} ReplaceSingle(s: string)
    requires NoDouble(s)
    ensures ReplaceDouble(s) == s
  {
    if |s| >= 2 {
      assert forall i :: 0 < i < |s| - 1 ==> s[1..][i] == s[i + 1] && s[1..][i - 1] == s[i];
      ReplaceSingle(s[1..]);
    }
  }

  /** `Mid(1, Length() - 2)`, which is empty for a lone quote. */
  function StripQuotes(s: string): string {
    if |s| > 0 && s[0] == '"' && s[|s| - 1] == '"' then (if |s| == 1 then "" else s[1..|s| - 1]) else s
  }

  // ---------- the relative path ----------

  function Unrooted(s: string): string {
    if |s| > 0 && s[0] == '/' then s[1..]
    else if |s| > 0 && s[0] == '~' then (if |s| > 1 then s[2..] else "")
    else s
  }

  /** Past the first component. */
  function Next(s: string): (r: string)
    ensures |s| > 0 ==> |r| < |s|
  {
    AfterFirst(s, '/')
  }

  /** What is left of both after their equal first components. */
  function Apart(s: string, base: string): (string, string)
    decreases |s|
  {
    if base == "" || s == "" || BeforeFirst(s, '/') != BeforeFirst(base, '/') then (s, base)
    else Apart(Next(s), Next(base))
  }

  /** One step up for each component of the base. */
  function Up(s: string, base: string): string
    decreases |base|
  {
    if base == "" then s else Up("../" + s, Next(base))
  }

  function Relative(s: string, base: string): string {
    var (rest, above) := Apart(s, base);
    Up(rest, above)
  }

  predicate CanRelate(s: string, base: string, relative: bool) {
    relative && base != "" && |s| > 0 && (s[0] == '/' || s[0] == '~')
  }

  function Directory(s: string, base: string, relative: bool): string {
    if s == "" then ""
    else
      var path, from := StripQuotes(Friendly(s)), StripQuotes(Friendly(base));
      Friendly(if CanRelate(path, from, relative) then Relative(Unrooted(path), Unrooted(from)) else path)
  }

  method ConvertToDAPDirectory(s: string, base: string, relative: bool) returns (r: string)
    ensures r == Directory(s, base, relative)
  {
    if s == "" {
      return "";
    }
    var str, from, relate := s, base, relative;
    str := ConvertToDAPFriendly(str);
    str := StripQuotes(str);
    if from != "" {
      from := ConvertToDAPFriendly(from);
      from := StripQuotes(from);
    }
    if str == "" || (str[0] != '/' && str[0] != '~') || from == "" {
      relate := false;
    }
    if relate {
      str := Unrooted(str);
      from := Unrooted(from);
      str := MakeRelative(str, from);
    }
    r := ConvertToDAPFriendly(str);
  }

  method MakeRelative(s: string, base: string) returns (r: string)
    ensures r == Relative(s, base)
  {
    var from := base;
    r := s;
    while from != "" && r != "" && BeforeFirst(r, '/') == BeforeFirst(from, '/')
      invariant Apart(r, from) == Apart(s, base)
      decreases |r|
    {
      r := if '/' in r then AfterFirst(r, '/') else "";
      from := if '/' in from then AfterFirst(from, '/') else "";
    }
    while from != ""
      invariant Up(r, from) == Relative(s, base)
      decreases |from|
    {
      r := "../" + r;
      from := if '/' in from then AfterFirst(from, '/') else "";
    }
  }

  // ---------- paths of components ----------

  predicate IsComponent(c: string) {
    c != "" && c != "." && c != ".." && '/' !in c && '\\' !in c
  }

  predicate AreComponents(cs: seq<string>) {
    forall i :: 0 <= i < |cs| ==> IsComponent(cs[i])
  }

  function Joined(cs: seq<string>): string {
    if |cs| == 0 then "" else if |cs| == 1 then cs[0] else cs[0] + "/" + Joined(cs[1..])
  }

  function Absolute(cs: seq<string>): string {
    "/" + Joined(cs)
  }

  function Common(a: seq<string>, b: seq<string>): (k: nat)
    ensures k <= |a| && k <= |b| && a[..k] == b[..k] && (k < |a| && k < |b| ==> a[k] != b[k])
  {
    if |a| == 0 || |b| == 0 || a[0] != b[0] then 0
    else
      var k := Common(a[1..], b[1..]);
      assert a[..k + 1] == [a[0]] + a[1..][..k] && b[..k + 1] == [b[0]] + b[1..][..k];
      k + 1
  }

  function Ups(n: nat): string {
    if n == 0 then "" else "../" + Ups(n - 1)
  }

  /** Where a relative path leads from a directory. */
  function Follow(dir: seq<string>, pieces: seq<string>): seq<string>
    decreases |pieces|
  {
    if |pieces| == 0 then dir
    else if pieces[0] == "." then Follow(dir, pieces[1..])
    else if pieces[0] == ".." then Follow(if |dir| > 0 then dir[..|dir| - 1] else dir, pieces[1..])
    else Follow(dir + [pieces[0]], pieces[1..])
  }

  function Resolve(dir: seq<string>, path: string): seq<string> {
    Follow(dir, Tokens(path, '/'))
  }

  // ---------- proofs ----------

  lemma JoinedHead(cs: seq<string>)
    requires AreComponents(cs) && |cs| > 0
    ensures Joined(cs) != "" && BeforeFirst(Joined(cs), '/') == cs[0] && Next(Joined(cs)) == Joined(cs[1..])
  {
    if |cs| == 1 {
      IndexOfIs(cs[0], '/', "");
      assert cs[0] + "" == cs[0];
    } else {
      IndexOfIs(cs[0], '/', "/" + Joined(cs[1..]));
      assert cs[0] + ("/" + Joined(cs[1..])) == Joined(cs);
    }
  }

  lemma {:induction false} ApartJoined(cs: seq<string>, bs: seq<string>)
    requires AreComponents(cs) && AreComponents(bs)
    ensures var k := Common(cs, bs); Apart(Joined(cs), Joined(bs)) == (Joined(cs[k..]), Joined(bs[k..]))
    decreases |cs|
  {
    if |cs| > 0 && |bs| > 0 {
      JoinedHead(cs);
      JoinedHead(bs);
      if cs[0] == bs[0] {
        ApartJoined(cs[1..], bs[1..]);
        var k := Common(cs[1..], bs[1..]);
        assert cs[1..][k..] == cs[k + 1..] && bs[1..][k..] == bs[k + 1..];
      }
    }
  }

  lemma {:induction false} UpJoined(s: string, bs: seq<string>, t: string)
    requires AreComponents(bs) && t == Ups(|bs|) + s
    ensures Up(s, Joined(bs)) == t
    decreases |bs|
  {
    if |bs| > 0 {
      JoinedHead(bs);
      UpsInner(|bs| - 1, s);
      UpJoined("../" + s, bs[1..], t);
    } else {
      assert t == s;
    }
  }

  lemma UpsInner(n: nat, s: string)
    ensures Ups(n + 1) + s == Ups(n) + ("../" + s)
  {
    UpsTurn(n);
    assert Ups(n) + ("../" + s) == Ups(n) + "../" + s;
  }

  lemma {:induction false} UpsTurn(n: nat)
    ensures Ups(n) + "../" == Ups(n + 1)
  {
    if n > 0 {
      UpsTurn(n - 1);
      assert "../" + Ups(n - 1) + "../" == "../" + (Ups(n - 1) + "../");
    } else {
      assert Ups(1) == "../" + Ups(0);
    }
  }

  /** Text that the slash conversion leaves alone. */
  predicate Clean(s: string) {
    '\\' !in s && NoDouble(s)
  }

  lemma {:induction false} JoinedClean(cs: seq<string>)
    requires AreComponents(cs)
    ensures Clean(Joined(cs)) && (|Joined(cs)| > 0 ==> Joined(cs)[0] != '/')
  {
    if |cs| > 0 {
      JoinedClean(cs[1..]);
      if |cs| > 1 {
        ConcatClean(cs[0], Joined(cs[1..]));
      }
    }
  }

  lemma ConcatClean(c: string, rest: string)
    requires '/' !in c && '\\' !in c && Clean(rest) && (|rest| > 0 ==> rest[0] != '/')
    ensures Clean(c + "/" + rest)
  {
    var s := c + "/" + rest;
    forall i | 0 < i < |s| && s[i] == '/' ensures s[i - 1] != '/' {
      if i > |c| {
        assert s[i] == rest[i - |c| - 1];
        if i > |c| + 1 {
          assert s[i - 1] == rest[i - |c| - 2];
        }
      } else {
        assert s[i - 1] == c[i - 1];
      }
    }
  }

  lemma {:induction false} UpsClean(n: nat, s: string)
    requires Clean(s) && (|s| > 0 ==> s[0] != '/')
    ensures Clean(Ups(n) + s) && (|Ups(n) + s| > 0 ==> (Ups(n) + s)[0] != '/')
  {
    if n > 0 {
      UpsClean(n - 1, s);
      ConcatClean("..", Ups(n - 1) + s);
      assert Ups(n) + s == ".." + "/" + (Ups(n - 1) + s);
    } else {
      assert Ups(0) + s == s;
    }
  }

  lemma FriendlyClean(s: string)
    requires Clean(s)
    ensures Friendly(s) == Quoted(s)
  {
    assert Slashes(s) == s;
    CollapseSingle(s);
  }

  lemma AbsoluteStays(cs: seq<string>)
    requires AreComponents(cs)
    ensures StripQuotes(Friendly(Absolute(cs))) == Absolute(cs)
    ensures Unrooted(Absolute(cs)) == Joined(cs) && |Absolute(cs)| > 0 && Absolute(cs)[0] == '/'
  {
    JoinedClean(cs);
    ConcatClean("", Joined(cs));
    assert "" + "/" + Joined(cs) == Absolute(cs);
    FriendlyClean(Absolute(cs));
    var s := Absolute(cs);
    assert ("\"" + s + "\"")[1..|s| + 1] == s;
  }

  /** One step up for each component of the base after the longest common prefix, then
      down the rest. */
  function Steps(cs: seq<string>, bs: seq<string>): string {
    var k := Common(cs, bs);
    Ups(|bs| - k) + Joined(cs[k..])
  }

  lemma RelativeIs(cs: seq<string>, bs: seq<string>)
    requires AreComponents(cs) && AreComponents(bs)
    ensures Relative(Joined(cs), Joined(bs)) == Steps(cs, bs)
  {
    var k := Common(cs, bs);
    ApartJoined(cs, bs);
    UpJoined(Joined(cs[k..]), bs[k..], Ups(|bs| - k) + Joined(cs[k..]));
  }

  lemma StepsClean(cs: seq<string>, bs: seq<string>)
    requires AreComponents(cs)
    ensures Friendly(Steps(cs, bs)) == Quoted(Steps(cs, bs))
  {
    var k := Common(cs, bs);
    JoinedClean(cs[k..]);
    UpsClean(|bs| - k, Joined(cs[k..]));
    FriendlyClean(Steps(cs, bs));
  }

  lemma DirectoryRelates(s: string, base: string, path: string, from: string, r: string)
    requires |s| > 0 && s[0] == '/' && |base| > 0 && Unrooted(s) == path && Unrooted(base) == from
    requires StripQuotes(Friendly(s)) == s && StripQuotes(Friendly(base)) == base
    requires Relative(path, from) == r && Friendly(r) == Quoted(r)
    ensures Directory(s, base, true) == Quoted(r)
  {
  }

  /** The relative path is the steps from the base, quoted if it has spaces. */
  lemma DirectoryIs(cs: seq<string>, bs: seq<string>)
    requires AreComponents(cs) && AreComponents(bs)
    ensures Directory(Absolute(cs), Absolute(bs), true) == Quoted(Steps(cs, bs))
  {
    AbsoluteStays(cs);
    AbsoluteStays(bs);
    RelativeIs(cs, bs);
    StepsClean(cs, bs);
    DirectoryRelates(Absolute(cs), Absolute(bs), Joined(cs), Joined(bs), Steps(cs, bs));
  }

  lemma {:induction false} TokensJoined(cs: seq<string>)
    requires AreComponents(cs)
    ensures Tokens(Joined(cs), '/') == cs
  {
    if |cs| > 0 {
      JoinedHead(cs);
      TokensJoined(cs[1..]);
    }
  }

  function Dots(n: nat): seq<string> {
    if n == 0 then [] else [".."] + Dots(n - 1)
  }

  lemma TokensStep(s: string, c: string, rest: string)
    requires c != "" && '/' !in c && s == c + ("/" + rest)
    ensures Tokens(s, '/') == [c] + Tokens(rest, '/')
  {
    IndexOfIs(c, '/', "/" + rest);
    assert BeforeFirst(s, '/') == c;
    assert AfterFirst(s, '/') == rest;
    assert Tokens(s, '/') == [BeforeFirst(s, '/')] + Tokens(AfterFirst(s, '/'), '/');
  }

  lemma UpsSplit(n: nat, s: string)
    requires n > 0
    ensures Ups(n) + s == ".." + ("/" + (Ups(n - 1) + s))
  {
  }

  lemma {:induction false} TokensUps(n: nat, s: string, t: string)
    requires t == Ups(n) + s
    ensures Tokens(t, '/') == Dots(n) + Tokens(s, '/')
  {
    if n == 0 {
      assert t == s;
    } else {
      var rest := Ups(n - 1) + s;
      UpsSplit(n, s);
      TokensUps(n - 1, s, rest);
      TokensStep(t, "..", rest);
      assert Dots(n) + Tokens(s, '/') == [".."] + (Dots(n - 1) + Tokens(s, '/'));
    }
  }

  lemma {:induction false} FollowUps(dir: seq<string>, n: nat, pieces: seq<string>)
    requires n <= |dir|
    ensures Follow(dir, Dots(n) + pieces) == Follow(dir[..|dir| - n], pieces)
    decreases n
  {
    var all := Dots(n) + pieces;
    if n == 0 {
      assert all == pieces && dir[..|dir|] == dir;
    } else {
      assert all[1..] == Dots(n - 1) + pieces;
      FollowUps(dir[..|dir| - 1], n - 1, pieces);
      assert dir[..|dir| - 1][..|dir| - n] == dir[..|dir| - n];
    }
  }

  lemma {:induction false} FollowDown(dir: seq<string>, cs: seq<string>)
    requires AreComponents(cs)
    ensures Follow(dir, cs) == dir + cs
    decreases |cs|
  {
    if |cs| > 0 {
      FollowDown(dir + [cs[0]], cs[1..]);
    }
  }

  lemma ResolveUps(dir: seq<string>, n: nat, cs: seq<string>)
    requires n <= |dir| && AreComponents(cs)
    ensures Resolve(dir, Ups(n) + Joined(cs)) == dir[..|dir| - n] + cs
  {
    TokensUps(n, Joined(cs), Ups(n) + Joined(cs));
    TokensJoined(cs);
    FollowUps(dir, n, cs);
    FollowDown(dir[..|dir| - n], cs);
  }

  /** From the base, the steps lead to the original directory. */
  lemma StepsResolve(cs: seq<string>, bs: seq<string>)
    requires AreComponents(cs) && AreComponents(bs)
    ensures Resolve(bs, Steps(cs, bs)) == cs
  {
    var k := Common(cs, bs);
    ResolveUps(bs, |bs| - k, cs[k..]);
    assert bs[..k] + cs[k..] == cs;
  }

  // ---------- spaces ----------

  lemma {:induction false} UpsHaveNoSpace(n: nat)
    ensures ' ' !in Ups(n)
  {
    if n > 0 {
      UpsHaveNoSpace(n - 1);
    }
  }

  lemma {:induction false} JoinedHasNoSpace(cs: seq<string>)
    ensures ' ' !in Joined(cs) <==> forall i :: 0 <= i < |cs| ==> ' ' !in cs[i]
  {
    if |cs| > 0 {
      var rest := cs[1..];
      JoinedHasNoSpace(rest);
      assert forall i :: 0 < i < |cs| ==> cs[i] == rest[i - 1];
      assert forall i :: 0 <= i < |rest| ==> rest[i] == cs[i + 1];
      assert |cs| > 1 ==> (' ' in Joined(cs) <==> ' ' in cs[0] || ' ' in Joined(rest));
    }
  }

  /** The steps have a space if and only if a component below the common prefix has one. */
  lemma StepsHaveNoSpace(cs: seq<string>, bs: seq<string>)
    ensures ' ' !in Steps(cs, bs) <==> forall i :: Common(cs, bs) <= i < |cs| ==> ' ' !in cs[i]
  {
    var k := Common(cs, bs);
    var below := cs[k..];
    UpsHaveNoSpace(|bs| - k);
    JoinedHasNoSpace(below);
    assert forall i :: k <= i < |cs| ==> cs[i] == below[i - k];
    assert forall i :: 0 <= i < |below| ==> below[i] == cs[k + i];
    assert ' ' in Steps(cs, bs) <==> ' ' in Ups(|bs| - k) || ' ' in Joined(below);
  }

  /** If no quotes are put around it, the result leads from the base to the original
      directory. */
  lemma DirectoryResolves(cs: seq<string>, bs: seq<string>)
    requires AreComponents(cs) && AreComponents(bs) && (' ' !in Steps(cs, bs) || Steps(cs, bs)[0] == '"')
    ensures Resolve(bs, Directory(Absolute(cs), Absolute(bs), true)) == cs
  {
    DirectoryIs(cs, bs);
    StepsResolve(cs, bs);
  }

  // ---------- quotes taken off ----------

  predicate QuotesAround(s: string) {
    |s| > 0 && s[0] == '"' && s[|s| - 1] == '"'
  }

  /** The characters that are not separators. */
  function Letters(s: string): nat {
    if |s| == 0 then 0 else (if s[0] == '/' then 0 else 1) + Letters(s[1..])
  }

  lemma {:induction false} LettersAppend(a: string, b: string)
    ensures Letters(a + b) == Letters(a) + Letters(b)
  {
    if |a| == 0 {
      assert a + b == b;
    } else {
      LettersAppend(a[1..], b);
      assert (a + b)[1..] == a[1..] + b;
    }
  }

  lemma {:induction false} LettersAll(s: string)
    requires '/' !in s
    ensures Letters(s) == |s|
  {
    if |s| > 0 {
      LettersAll(s[1..]);
    }
  }

  function Weight(cs: seq<string>): nat {
    if |cs| == 0 then 0 else |cs[0]| + Weight(cs[1..])
  }

  lemma {:induction false} WeightAppend(a: seq<string>, b: seq<string>)
    ensures Weight(a + b) == Weight(a) + Weight(b)
  {
    if |a| == 0 {
      assert a + b == b;
    } else {
      WeightAppend(a[1..], b);
      assert (a + b)[1..] == a[1..] + b;
    }
  }

  lemma {:induction false} TokensWeight(s: string)
    ensures Weight(Tokens(s, '/')) == Letters(s)
    decreases |s|
  {
    var k := IndexOf(s, '/');
    if |s| > 0 && k == 0 {
      TokensWeight(s[1..]);
    } else if |s| > 0 {
      var first, rest := BeforeFirst(s, '/'), AfterFirst(s, '/');
      TokensWeight(rest);
      LettersAll(first);
      LettersAppend(first, s[k..]);
      assert s == first + s[k..];
      assert k < |s| ==> s[k..][1..] == rest;
      assert Tokens(s, '/') == [first] + Tokens(rest, '/');
    }
  }

  lemma {:induction false} FollowWeight(dir: seq<string>, pieces: seq<string>)
    ensures Weight(Follow(dir, pieces)) <= Weight(dir) + Weight(pieces)
    decreases |pieces|
  {
    if |pieces| > 0 {
      var rest := pieces[1..];
      if pieces[0] == "." {
        FollowWeight(dir, rest);
      } else if pieces[0] == ".." {
        if |dir| > 0 {
          FollowWeight(dir[..|dir| - 1], rest);
          WeightAppend(dir[..|dir| - 1], [dir[|dir| - 1]]);
          assert dir == dir[..|dir| - 1] + [dir[|dir| - 1]];
        } else {
          FollowWeight(dir, rest);
        }
      } else {
        FollowWeight(dir + [pieces[0]], rest);
        WeightAppend(dir, [pieces[0]]);
      }
    }
  }

  lemma StrippedIsLighter(s: string)
    requires QuotesAround(s)
    ensures Letters(StripQuotes(s)) < Letters(s)
  {
    if |s| > 1 {
      var inner := s[1..|s| - 1];
      assert s == ("\"" + inner) + "\"";
      LettersAppend("\"" + inner, "\"");
      LettersAppend("\"", inner);
    }
  }

  /** Steps that begin with a quote go down only. */
  lemma QuotedGoesDown(cs: seq<string>, bs: seq<string>)
    requires AreComponents(cs) && AreComponents(bs) && |Steps(cs, bs)| > 0 && Steps(cs, bs)[0] == '"'
    ensures Weight(cs) == Weight(bs) + Letters(Steps(cs, bs))
  {
    var k := Common(cs, bs);
    assert k == |bs|;
    assert bs[..k] == bs && Steps(cs, bs) == Joined(cs[k..]) && bs + cs[k..] == cs;
    WeightAppend(bs, cs[k..]);
    TokensJoined(cs[k..]);
    TokensWeight(Joined(cs[k..]));
  }

  /** With quotes around it taken off, the result leads to the original directory if and only
      if the steps have no quotes of their own around them. */
  lemma QuotedResolves(cs: seq<string>, bs: seq<string>)
    requires AreComponents(cs) && AreComponents(bs)
    ensures Resolve(bs, StripQuotes(Directory(Absolute(cs), Absolute(bs), true))) == cs
            <==> !QuotesAround(Steps(cs, bs))
  {
    var steps := Steps(cs, bs);
    DirectoryIs(cs, bs);
    StepsResolve(cs, bs);
    if QuotesAround(steps) {
      StrippedIsLighter(steps);
      QuotedGoesDown(cs, bs);
      TokensWeight(StripQuotes(steps));
      FollowWeight(bs, Tokens(StripQuotes(steps), '/'));
    } else if ' ' in steps && steps[0] != '"' {
      assert StripQuotes("\"" + steps + "\"") == steps;
    }
  }
}
