/** Directories as they are written: any separators, in runs of any length. */
module PathForms {
  import opened RelativePath

  /** A component and the separators behind it. */
  datatype Piece = Piece(name: string, gap: string)

  predicate IsGap(s: string) {
    forall i :: 0 <= i < |s| ==> s[i] == '/' || s[i] == '\\'
  }

  predicate IsName(s: string) {
    s != "" && '/' !in s && '\\' !in s
  }

  /** Every name but the last has separators behind it. */
  predicate PiecesOk(ps: seq<Piece>) {
    |ps| == 0 ||
    (IsName(ps[0].name) && IsGap(ps[0].gap) && (|ps| > 1 ==> ps[0].gap != "") && PiecesOk(ps[1..]))
  }

  function Written(ps: seq<Piece>): string {
    if |ps| == 0 then "" else ps[0].name + (ps[0].gap + Written(ps[1..]))
  }

  function One(gap: string): string {
    if gap == "" then "" else "/"
  }

  /** The same with one slash for each run of separators. */
  function Tidy(ps: seq<Piece>): string {
    if |ps| == 0 then "" else ps[0].name + (One(ps[0].gap) + Tidy(ps[1..]))
  }

  function Names(ps: seq<Piece>): seq<string> {
    if |ps| == 0 then [] else [ps[0].name] + Names(ps[1..])
  }

  // ---------- separators ----------

  lemma SlashesTurned(s: string)
    ensures |Slashes(s)| == |s|
    ensures forall i :: 0 <= i < |s| ==> Slashes(s)[i] == if s[i] == '\\' || s[i] == '/' then '/' else s[i]
  {
  }

  lemma SlashesJoin(a: string, b: string)
    ensures Slashes(a + b) == Slashes(a) + Slashes(b)
  {
  }

  /** Text that begins with no slash. */
  predicate NoLead(t: string) {
    |t| > 0 ==> t[0] != '/'
  }

  lemma {:induction false} RunCollapses(run: string, t: string)
    requires (forall i :: 0 <= i < |run| ==> run[i] == '/') && NoLead(t)
    ensures Collapse(run + t) == One(run) + Collapse(t)
    decreases |run|
  {
    if |run| == 0 {
      assert run + t == t && One(run) + Collapse(t) == Collapse(t);
    } else {
      var u := run[1..] + t;
      RunCollapses(run[1..], t);
      assert run + t == "/" + u && (run + t)[1..] == u;
      if |run| == 1 {
        assert u == t && "" + Collapse(t) == Collapse(t);
        assert |t| == 0 ==> run + t == "/" && "/" + Collapse(t) == "/";
      } else {
        assert u[0] == '/';
      }
    }
  }

  lemma {:induction false} NameStays(name: string, t: string)
    requires '/' !in name
    ensures Collapse(name + t) == name + Collapse(t)
  {
    if |name| == 0 {
      assert name + t == t && name + Collapse(t) == Collapse(t);
    } else {
      NameStays(name[1..], t);
      assert name + t == [name[0]] + (name[1..] + t) && (name + t)[1..] == name[1..] + t;
      assert [name[0]] + (name[1..] + Collapse(t)) == name + Collapse(t);
      if |name + t| < 2 {
        assert |t| == 0 && name == [name[0]];
      }
    }
  }

  lemma SlashesOfWritten(ps: seq<Piece>)
    requires |ps| > 0 && PiecesOk(ps)
    ensures Slashes(Written(ps)) == ps[0].name + (Slashes(ps[0].gap) + Slashes(Written(ps[1..])))
    ensures forall i :: 0 <= i < |ps[0].gap| ==> Slashes(ps[0].gap)[i] == '/'
  {
    SlashesJoin(ps[0].name, ps[0].gap + Written(ps[1..]));
    SlashesJoin(ps[0].gap, Written(ps[1..]));
    assert Slashes(ps[0].name) == ps[0].name;
  }

  lemma {:induction false} PiecesTidied(ps: seq<Piece>)
    requires PiecesOk(ps)
    ensures Collapse(Slashes(Written(ps))) == Tidy(ps) && NoLead(Slashes(Written(ps)))
  {
    if |ps| > 0 {
      var gap, rest := Slashes(ps[0].gap), Slashes(Written(ps[1..]));
      PiecesTidied(ps[1..]);
      SlashesOfWritten(ps);
      NameStays(ps[0].name, gap + rest);
      RunCollapses(gap, rest);
    }
  }

  lemma TextTidied(lead: string, ps: seq<Piece>)
    requires IsGap(lead) && PiecesOk(ps)
    ensures Collapse(Slashes(lead + Written(ps))) == One(lead) + Tidy(ps)
  {
    SlashesJoin(lead, Written(ps));
    PiecesTidied(ps);
    RunCollapses(Slashes(lead), Slashes(Written(ps)));
  }

  /** Every run of separators becomes one slash, and the text is quoted if it has a space and
      does not begin with a quote. */
  lemma FriendlyForm(lead: string, ps: seq<Piece>)
    requires IsGap(lead) && PiecesOk(ps)
    ensures var tidy := One(lead) + Tidy(ps);
            Friendly(lead + Written(ps)) == if ' ' in tidy && tidy[0] != '"' then "\"" + tidy + "\"" else tidy
  {
    TextTidied(lead, ps);
  }

  // ---------- directories that are not made relative ----------

  function TidyPieces(ps: seq<Piece>): seq<Piece> {
    if |ps| == 0 then [] else [Piece(ps[0].name, One(ps[0].gap))] + TidyPieces(ps[1..])
  }

  lemma {:induction false} TidyIsWritten(ps: seq<Piece>)
    requires PiecesOk(ps)
    ensures PiecesOk(TidyPieces(ps)) && Written(TidyPieces(ps)) == Tidy(ps) == Tidy(TidyPieces(ps))
    ensures |TidyPieces(ps)| == |ps|
  {
    if |ps| > 0 {
      TidyIsWritten(ps[1..]);
      assert TidyPieces(ps)[1..] == TidyPieces(ps[1..]);
    }
  }

  lemma TidyStays(lead: string, ps: seq<Piece>)
    requires IsGap(lead) && PiecesOk(ps)
    ensures Friendly(One(lead) + Tidy(ps)) == Friendly(lead + Written(ps))
  {
    TidyIsWritten(ps);
    TextTidied(lead, ps);
    TextTidied(One(lead), TidyPieces(ps));
  }

  /** Nothing but the separators changes if no relative directory is asked for, there is no
      base, or the directory is relative already. */
  lemma NotRelated(lead: string, ps: seq<Piece>, base: string, relative: bool)
    requires IsGap(lead) && PiecesOk(ps) && |ps| > 0
    requires '"' !in Tidy(ps)
    requires !relative || base == "" || (lead == "" && ps[0].name[0] != '~')
    ensures Directory(lead + Written(ps), base, relative) == Friendly(lead + Written(ps))
  {
    var s, tidy := lead + Written(ps), One(lead) + Tidy(ps);
    FriendlyForm(lead, ps);
    assert '"' !in tidy;
    StripQuoted(tidy);
    assert StripQuotes(Friendly(s)) == tidy;
    assert lead == "" ==> tidy[0] == ps[0].name[0];
    TidyStays(lead, ps);
  }

  lemma StripQuoted(s: string)
    requires '"' !in s
    ensures StripQuotes("\"" + s + "\"") == s && StripQuotes(s) == s
  {
    assert ("\"" + s + "\"")[1..|s| + 1] == s;
  }

  // ---------- directories that are ----------

  lemma {:induction false} TidyIsJoined(ps: seq<Piece>)
    requires PiecesOk(ps) && (|ps| > 0 ==> ps[|ps| - 1].gap == "")
    ensures Tidy(ps) == Joined(Names(ps)) && |Names(ps)| == |ps|
  {
    if |ps| > 0 {
      TidyIsJoined(ps[1..]);
      assert Names(ps)[1..] == Names(ps[1..]);
      if |ps| == 1 {
        assert ps[0].name + ("" + "") == ps[0].name;
      }
    }
  }

  lemma MessyStays(lead: string, ps: seq<Piece>)
    requires IsGap(lead) && lead != "" && PiecesOk(ps) && (|ps| > 0 ==> ps[|ps| - 1].gap == "")
    requires AreComponents(Names(ps))
    ensures StripQuotes(Friendly(lead + Written(ps))) == Absolute(Names(ps))
  {
    TextTidied(lead, ps);
    TidyIsJoined(ps);
    AbsoluteStays(Names(ps));
    TidyStays(lead, ps);
  }

  /** However the two absolute directories are written, what comes out are the steps from one
      to the other. */
  lemma WrittenAnyhow(lead: string, ps: seq<Piece>, baseLead: string, bs: seq<Piece>)
    requires IsGap(lead) && lead != "" && PiecesOk(ps) && (|ps| > 0 ==> ps[|ps| - 1].gap == "")
    requires IsGap(baseLead) && baseLead != "" && PiecesOk(bs) && (|bs| > 0 ==> bs[|bs| - 1].gap == "")
    requires AreComponents(Names(ps)) && AreComponents(Names(bs))
    ensures Directory(lead + Written(ps), baseLead + Written(bs), true) == Quoted(Steps(Names(ps), Names(bs)))
  {
    MessyStays(lead, ps);
    MessyStays(baseLead, bs);
    DirectoryIs(Names(ps), Names(bs));
    AbsoluteStays(Names(ps));
    AbsoluteStays(Names(bs));
  }

  /** Directories below the home directory are related in the same way. */
  lemma BelowHome(cs: seq<string>, bs: seq<string>)
    requires AreComponents(cs) && AreComponents(bs) && |cs| > 0 && |bs| > 0
    ensures Directory("~/" + Joined(cs), "~/" + Joined(bs), true) == Quoted(Steps(cs, bs))
  {
    HomeStays(cs);
    HomeStays(bs);
    RelativeIs(cs, bs);
    StepsClean(cs, bs);
  }

  lemma QuotesComeOff(s: string)
    requires |s| > 0 && s[0] != '"'
    ensures StripQuotes(Quoted(s)) == s
  {
    assert ("\"" + s + "\"")[1..|s| + 1] == s;
  }

  lemma HomeIsClean(text: string, s: string)
    requires Clean(text) && NoLead(text) && s == "~/" + text
    ensures Clean(s) && Unrooted(s) == text
  {
    ConcatClean("~", text);
    assert "~" + "/" + text == s && s[2..] == text;
  }

  lemma HomeStays(cs: seq<string>)
    requires AreComponents(cs) && |cs| > 0
    ensures var s := "~/" + Joined(cs); StripQuotes(Friendly(s)) == s && Unrooted(s) == Joined(cs) && s[0] == '~'
  {
    var s := "~/" + Joined(cs);
    JoinedClean(cs);
    HomeIsClean(Joined(cs), s);
    FriendlyClean(s);
    QuotesComeOff(s);
  }
}
