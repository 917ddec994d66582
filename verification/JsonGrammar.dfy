/** What texts the parser reads, and as what. */
module JsonGrammar {
  import opened JsonParser
  import opened JsonStrings
  import opened JsonValue

  // ---------- blanks ----------

  /** Blanks are the characters up to space but the terminator, and all of them are skipped. */
  lemma {:induction false} SkipsBlanks(blanks: string, t: string)
    requires forall k :: 0 <= k < |blanks| ==> 0 < blanks[k] as int <= 32
    requires |t| > 0 ==> t[0] as int == 0 || t[0] as int > 32
    ensures SkipSpace(blanks + t) == t
  {
    if |blanks| == 0 {
      assert blanks + t == t;
    } else {
      SkipsBlanks(blanks[1..], t);
      assert (blanks + t)[1..] == blanks[1..] + t;
    }
  }

  lemma {:induction false} SkipTwice(t: string)
    ensures SkipSpace(SkipSpace(t)) == SkipSpace(t)
  {
    if |t| > 0 && '\0' < t[0] <= ' ' {
      SkipTwice(t[1..]);
    }
  }

  // ---------- values ----------

  /** `t` is the text of `v`, and then `rest`. */
  ghost predicate IsValue(t: string, v: Json, rest: string)
    decreases v, 2
  {
    match v
    case Null => t == "null" + rest
    case False => t == "false" + rest
    case True => t == "true" + rest
    case Number(_) => StartsNumber(t) && NumberAt(t) == Got(v, rest)
    case Str(text) => StringAt(t) == Got(text, rest)
    case Array(items) =>
      At(t, 0) == '[' && if |items| == 0 then SkipSpace(t[1..]) == "]" + rest else IsItems(t[1..], items, rest)
    case Object(members) =>
      At(t, 0) == '{' && if |members| == 0 then SkipSpace(t[1..]) == "}" + rest else IsMembers(t[1..], members, rest)
  }

  /** Items with commas between them and blanks around them, and the closing bracket. */
  ghost predicate IsItems(t: string, items: seq<Json>, rest: string)
    requires |items| > 0
    decreases items, 1
  {
    exists after: string ::
      IsValue(SkipSpace(t), items[0], after) && IsMoreItems(SkipSpace(after), items, rest)
  }

  ghost predicate IsMoreItems(t: string, items: seq<Json>, rest: string)
    requires |items| > 0
    decreases items, 0
  {
    if |items| == 1 then t == "]" + rest else At(t, 0) == ',' && IsItems(t[1..], items[1..], rest)
  }

  /** A name, a colon and a value, with blanks between them. */
  ghost predicate IsMember(t: string, m: Member, after: string)
    decreases m.value, 3
  {
    match StringAt(SkipSpace(t))
    case Got(key, rest) =>
      var colon := SkipSpace(rest);
      key == m.key && At(colon, 0) == ':' && IsValue(SkipSpace(colon[1..]), m.value, after)
    case _ => false
  }

  /** The same as for items. */
  ghost predicate IsMembers(t: string, members: seq<Member>, rest: string)
    requires |members| > 0
    decreases members, 1
  {
    exists after: string :: IsMember(t, members[0], after) && IsMoreMembers(SkipSpace(after), members, rest)
  }

  ghost predicate IsMoreMembers(t: string, members: seq<Member>, rest: string)
    requires |members| > 0
    decreases members, 0
  {
    if |members| == 1 then t == "}" + rest else At(t, 0) == ',' && IsMembers(t[1..], members[1..], rest)
  }

  lemma KeywordIff(t: string, k: string, rest: string)
    ensures StartsWith(t, k) && t[|k|..] == rest <==> t == k + rest
  {
    if StartsWith(t, k) && t[|k|..] == rest {
      assert t == t[..|k|] + t[|k|..];
    }
    if t == k + rest {
      assert t[..|k|] == k && t[|k|..] == rest;
    }
  }

  lemma WordIff(t: string, v: Json, rest: string)
    requires v.Null? || v.False? || v.True?
    ensures ValueAt(t) == Got(v, rest) <==> IsValue(t, v, rest)
  {
    KeywordIff(t, "null", rest);
    KeywordIff(t, "false", rest);
    KeywordIff(t, "true", rest);
    NumbersAreNumbers(t);
    KeywordsDiffer(t);
  }

  lemma NumbersAreNumbers(t: string)
    ensures StartsNumber(t) ==> NumberAt(t).Got? && NumberAt(t).value.Number?
    ensures At(t, 0) == '[' && ArrayAt(t).Got? ==> ArrayAt(t).value.Array?
    ensures At(t, 0) == '{' && ObjectAt(t).Got? ==> ObjectAt(t).value.Object?
  {
  }

  lemma KeywordsDiffer(t: string)
    ensures StartsWith(t, "null") ==> At(t, 0) == 'n'
    ensures StartsWith(t, "false") ==> At(t, 0) == 'f'
    ensures StartsWith(t, "true") ==> At(t, 0) == 't'
  {
    if StartsWith(t, "null") {
      assert t[0] == "null"[0];
    }
    if StartsWith(t, "false") {
      assert t[0] == "false"[0];
    }
    if StartsWith(t, "true") {
      assert t[0] == "true"[0];
    }
  }

  /** The parser reads a value, and stops behind it, if and only if the text is of that form. */
  lemma {:induction false} ReadsTheGrammar(t: string, v: Json, rest: string)
    ensures ValueAt(t) == Got(v, rest) <==> IsValue(t, v, rest)
    decreases v, 2
  {
    KeywordsDiffer(t);
    NumbersAreNumbers(t);
    match v {
      case Null => WordIff(t, v, rest);
      case False => WordIff(t, v, rest);
      case True => WordIff(t, v, rest);
      case Number(_) =>
      case Str(_) =>
      case Array(items) =>
        if At(t, 0) == '[' {
          ArrayIff(t, items, rest);
        }
      case Object(members) =>
        if At(t, 0) == '{' {
          ObjectIff(t, members, rest);
        }
    }
  }

  lemma OneCharacter(t: string, c: char, rest: string)
    requires c != '\0'
    ensures At(t, 0) == c && t[1..] == rest <==> t == [c] + rest
  {
  }

  lemma {:induction false} ArrayIff(t: string, items: seq<Json>, rest: string)
    requires At(t, 0) == '['
    ensures ArrayAt(t) == Got(Array(items), rest) <==> IsValue(t, Array(items), rest)
    decreases items, 4
  {
    var u := SkipSpace(t[1..]);
    OneCharacter(u, ']', rest);
    if |items| > 0 {
      ItemsIff(t[1..], items, rest);
      if At(u, 0) == ']' {
        NoItems(u);
      }
    } else {
      SomeItems(u);
    }
  }

  /** Where a bracket closes there is no item. */
  lemma NoItems(u: string)
    requires At(u, 0) == ']'
    ensures !ItemsAt(u).Got?
  {
    KeywordsDiffer(u);
    assert SkipSpace(u) == u && ValueAt(u) == Rejected;
    assert ItemAt(u) == Rejected;
  }

  lemma SomeItems(t: string)
    ensures ItemsAt(t).Got? ==> ItemAt(t).Got? && |ItemsAt(t).value| > 0
  {
  }

  lemma {:induction false} ItemsIff(t: string, items: seq<Json>, rest: string)
    requires |items| > 0
    ensures ItemsAt(SkipSpace(t)) == Got(items, rest) <==> IsItems(t, items, rest)
    decreases items, 3
  {
    var u := SkipSpace(t);
    SkipTwice(t);
    SomeItems(u);
    if ItemsAt(u) == Got(items, rest) {
      var after := ItemAt(u).rest;
      ReadsTheGrammar(u, items[0], after);
      MoreItemsIff(SkipSpace(after), items, rest);
      assert IsValue(u, items[0], after);
    }
    if after: string :| IsValue(u, items[0], after) && IsMoreItems(SkipSpace(after), items, rest) {
      ReadsTheGrammar(u, items[0], after);
      MoreItemsIff(SkipSpace(after), items, rest);
      assert items == [items[0]] + items[1..];
    }
  }

  lemma {:induction false} MoreItemsIff(t: string, items: seq<Json>, rest: string)
    requires |items| > 0
    ensures MoreItemsAt(t) == Got(items[1..], rest) <==> IsMoreItems(t, items, rest)
    decreases items, 2
  {
    OneCharacter(t, ']', rest);
    assert |items| == 1 ==> items[1..] == [];
    if At(t, 0) == ',' {
      SomeItems(t[1..]);
      if |items| > 1 {
        ItemsIff(t[1..], items[1..], rest);
        ItemsSkip(t[1..]);
      }
    }
  }

  lemma ItemsSkip(t: string)
    ensures ItemsAt(SkipSpace(t)) == ItemsAt(t)
  {
    SkipTwice(t);
  }

  lemma {:induction false} ObjectIff(t: string, members: seq<Member>, rest: string)
    requires At(t, 0) == '{'
    ensures ObjectAt(t) == Got(Object(members), rest) <==> IsValue(t, Object(members), rest)
    decreases members, 4
  {
    var u := SkipSpace(t[1..]);
    OneCharacter(u, '}', rest);
    if |members| > 0 {
      MembersIff(t[1..], members, rest);
      if At(u, 0) == '}' {
        NoMembers(u);
      }
    } else {
      SomeMembers(u);
    }
  }

  lemma NoMembers(u: string)
    requires At(u, 0) == '}'
    ensures !MembersAt(u).Got?
  {
    assert SkipSpace(u) == u && StringAt(u) == Rejected;
    assert MemberAt(u) == Rejected;
  }

  lemma SomeMembers(t: string)
    ensures MembersAt(t).Got? ==> MemberAt(t).Got? && |MembersAt(t).value| > 0
  {
  }

  lemma {:induction false} MemberIff(t: string, m: Member, after: string)
    ensures MemberAt(t) == Got(m, after) <==> IsMember(t, m, after)
    decreases m.value, 4
  {
    match StringAt(SkipSpace(t)) {
      case Got(key, rest) =>
        var colon := SkipSpace(rest);
        if At(colon, 0) == ':' {
          ReadsTheGrammar(SkipSpace(colon[1..]), m.value, after);
        }
      case _ =>
    }
  }

  lemma {:induction false} MembersIff(t: string, members: seq<Member>, rest: string)
    requires |members| > 0
    ensures MembersAt(SkipSpace(t)) == Got(members, rest) <==> IsMembers(t, members, rest)
    decreases members, 3
  {
    MembersSkip(t);
    SomeMembers(t);
    if MembersAt(t) == Got(members, rest) {
      var after := MemberAt(t).rest;
      MemberIff(t, members[0], after);
      MoreMembersIff(SkipSpace(after), members, rest);
      assert IsMember(t, members[0], after);
    }
    if after: string :| IsMember(t, members[0], after) && IsMoreMembers(SkipSpace(after), members, rest) {
      MemberIff(t, members[0], after);
      MoreMembersIff(SkipSpace(after), members, rest);
      assert members == [members[0]] + members[1..];
    }
  }

  lemma {:induction false} MoreMembersIff(t: string, members: seq<Member>, rest: string)
    requires |members| > 0
    ensures MoreMembersAt(t) == Got(members[1..], rest) <==> IsMoreMembers(t, members, rest)
    decreases members, 2
  {
    OneCharacter(t, '}', rest);
    assert |members| == 1 ==> members[1..] == [];
    if At(t, 0) == ',' {
      SomeMembers(t[1..]);
      if |members| > 1 {
        MembersIff(t[1..], members[1..], rest);
        MembersSkip(t[1..]);
      }
    }
  }

  lemma MembersSkip(t: string)
    ensures MembersAt(SkipSpace(t)) == MembersAt(t)
  {
    SkipTwice(t);
  }

  /** A text is read as the value at its beginning, blanks before it aside. */
  lemma ParseReads(blanks: string, t: string, v: Json, rest: string)
    requires forall k :: 0 <= k < |blanks| ==> 0 < blanks[k] as int <= 32
    requires |t| > 0 ==> t[0] as int == 0 || t[0] as int > 32
    ensures Parse(blanks + t) == Got(v, rest) <==> IsValue(t, v, rest)
  {
    SkipsBlanks(blanks, t);
    ReadsTheGrammar(t, v, rest);
  }
}
