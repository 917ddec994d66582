/** Printing, then parsing: the tree comes back, in either mode and at every depth. */
module JsonRoundTrip {
  import opened Decimal
  import opened JsonParser
  import opened JsonPrinter
  import opened JsonStrings
  import opened JsonValue

  // ---------- numbers ----------

  /** A text that does not continue a number: no digit, exponent, or point and digit. */
  predicate EndsNumber(rest: string) {
    !IsDigit(At(rest, 0)) && At(rest, 0) != 'e' && At(rest, 0) != 'E'
    && (At(rest, 0) == '.' ==> |rest| < 2 || !IsDigit(rest[1]))
  }

  lemma DigitsRoundTrip(n: nat, rest: string)
    requires EndsNumber(rest)
    ensures IntegerAt(Digits(n) + rest).n == n && IntegerAt(Digits(n) + rest).rest == rest
  {
    var t := Digits(n) + rest;
    assert t[0] == Digits(n)[0] && IsDigit(t[0]);
    if n == 0 {
      assert t[1..] == rest;
    } else {
      RunIs(Digits(n), rest);
      assert t[..|Digits(n)|] == Digits(n) && t[|Digits(n)|..] == rest;
      AccumulateDigits(n);
    }
  }

  lemma IntegerParts(m: nat, rest: string)
    requires EndsNumber(rest)
    ensures var whole := IntegerAt(Digits(m) + rest);
            FractionAt(whole.rest, whole.n) == Digested(m, 0, rest) && ExponentAt(rest) == Exponent(0, rest)
  {
    DigitsRoundTrip(m, rest);
  }

  /** The text of an integer is its sign and its digits. */
  lemma TextParts(n: int, rest: string)
    ensures var t, u := Text(n) + rest, Digits(if n < 0 then -n else n) + rest;
            |t| > 0 && (if n < 0 then t[0] == '-' && t[1..] == u else t == u && IsDigit(t[0]))
  {
    if n < 0 {
      assert ("-" + Digits(-n) + rest)[1..] == Digits(-n) + rest;
    } else {
      assert (Digits(n) + rest)[0] == Digits(n)[0];
    }
  }

  lemma NumberRoundTrip(n: int, rest: string)
    requires EndsNumber(rest)
    ensures StartsNumber(Text(n) + rest) && NumberAt(Text(n) + rest) == Got(Number(n as real), rest)
  {
    var m := if n < 0 then -n else n;
    TextParts(n, rest);
    IntegerParts(m, rest);
    NumberParts(Text(n) + rest, n < 0, Digits(m) + rest, Digested(m, 0, rest), Exponent(0, rest), 0);
    assert Scaled(n < 0, m, 0) == n as real;
  }

  // ---------- whitespace ----------

  lemma {:induction false} SkipSpaces(n: nat, t: string)
    ensures SkipSpace(Spaces(n) + t) == SkipSpace(t)
  {
    if n == 0 {
      assert Spaces(n) + t == t;
    } else {
      assert (Spaces(n) + t)[1..] == Spaces(n - 1) + t;
      SkipSpaces(n - 1, t);
    }
  }

  lemma SkipNewline(t: string)
    ensures SkipSpace("\n" + t) == SkipSpace(t)
  {
    assert ("\n" + t)[1..] == t;
  }

  /** Optional indentation, with or without the line end before it. */
  lemma SkipIndent(fmt: bool, n: nat, t: string)
    ensures SkipSpace(OnlyIf(fmt, Spaces(n)) + t) == SkipSpace(t)
    ensures SkipSpace(OnlyIf(fmt, "\n") + (OnlyIf(fmt, Spaces(n)) + t)) == SkipSpace(t)
  {
    SkipSpaces(n, t);
    if fmt {
      SkipNewline(Spaces(n) + t);
    } else {
      assert "" + t == t;
      assert "" + ("" + t) == t;
    }
  }

  /** The first character of printed text: never whitespace, a closing bracket or a comma. */
  predicate StartsValue(t: string) {
    |t| > 0 && t[0] > ' ' && t[0] != ']' && t[0] != '}' && t[0] != ',' && t[0] != ':'
  }

  lemma PrintStarts(v: Json, depth: nat, fmt: bool)
    requires Exact(v)
    ensures StartsValue(PrintValue(v, depth, fmt))
  {
    if v.Number? && v.value.Floor >= 0 {
      assert IsDigit(Digits(v.value.Floor)[0]);
    }
  }

  // ---------- trees ----------

  /** Which continuations keep `v` whole: only a number can be extended by what follows. */
  predicate Keeps(v: Json, rest: string) {
    v.Number? ==> EndsNumber(rest)
  }

  /** Parsing the text of a tree, followed by anything that does not extend it,
      returns the tree and leaves what follows. */
  lemma {:induction false} ValueRoundTrip(v: Json, depth: nat, fmt: bool, rest: string)
    requires Exact(v) && Keeps(v, rest)
    ensures ValueAt(PrintValue(v, depth, fmt) + rest) == Got(v, rest)
    decreases v, 1
  {
    var t := PrintValue(v, depth, fmt) + rest;
    assert t[0] == PrintValue(v, depth, fmt)[0];
    match v {
      case Null => KeywordRoundTrip("null", rest);
      case False => KeywordRoundTrip("false", rest);
      case True => KeywordRoundTrip("true", rest);
      case Number(r) =>
        NumberRoundTrip(r.Floor, rest);
        NotKeyword(t);
      case Str(s) =>
        StringRoundTrip(s, rest);
        NotKeyword(t);
      case Array(items) =>
        NotKeyword(t);
        ArrayRoundTrip(v, depth, fmt, rest);
      case Object(members) =>
        NotKeyword(t);
        ObjectRoundTrip(v, depth, fmt, rest);
    }
  }

  lemma KeywordRoundTrip(k: string, rest: string)
    requires k == "null" || k == "false" || k == "true"
    ensures Keyword(k + rest) == Got(if k == "null" then Null else if k == "false" then False else True, rest)
  {
    var t := k + rest;
    assert t[0] == k[0];
    assert t[..|k|] == k && t[|k|..] == rest;
    if k != "null" {
      assert !StartsWith(t, "null") by {
        assert "null"[0] != t[0];
      }
    }
    if k == "true" {
      assert !StartsWith(t, "false") by {
        assert "false"[0] != t[0];
      }
    }
  }

  lemma NotKeyword(t: string)
    requires |t| > 0 && t[0] != 'n' && t[0] != 'f' && t[0] != 't'
    ensures Keyword(t) == Rejected
  {
    assert "null"[0] == 'n' && "false"[0] == 'f' && "true"[0] == 't';
  }

  lemma NoSkip(t: string)
    requires |t| == 0 || t[0] > ' '
    ensures SkipSpace(t) == t
  {
  }

  lemma {:induction false} ArrayRoundTrip(v: Json, depth: nat, fmt: bool, rest: string)
    requires v.Array? && Exact(v)
    ensures At(PrintValue(v, depth, fmt) + rest, 0) == '['
    ensures ArrayAt(PrintValue(v, depth, fmt) + rest) == Got(v, rest)
    decreases v, 0
  {
    var t := PrintValue(v, depth, fmt) + rest;
    var joined := Join(ItemTexts(v.items, depth + 1, fmt), Comma(fmt));
    var u := joined + ("]" + rest);
    assert t[0] == '[' && t[1..] == u;
    if |v.items| == 0 {
      assert u == "]" + rest && u[1..] == rest;
    } else {
      ItemsStart(v.items, depth + 1, fmt);
      assert u[0] == joined[0];
      ItemsRoundTrip(v.items, depth + 1, fmt, rest);
    }
    NoSkip(u);
  }

  lemma ItemsStart(items: seq<Json>, depth: nat, fmt: bool)
    requires |items| > 0 && ExactItems(items)
    ensures StartsValue(Join(ItemTexts(items, depth, fmt), Comma(fmt)))
  {
    PrintStarts(items[0], depth, fmt);
    assert ItemTexts(items, depth, fmt)[0] == PrintValue(items[0], depth, fmt);
  }

  /** The first item of the joined texts, and what follows it. */
  lemma JoinedItems(items: seq<Json>, depth: nat, fmt: bool, rest: string)
    requires |items| > 0 && ExactItems(items)
    ensures Join(ItemTexts(items, depth, fmt), Comma(fmt)) + rest
         == PrintValue(items[0], depth, fmt) + AfterItem(items, depth, fmt, rest)
  {
  }

  function AfterItem(items: seq<Json>, depth: nat, fmt: bool, rest: string): string
    requires |items| > 0 && ExactItems(items)
  {
    if |items| == 1 then rest
    else "," + (OnlyIf(fmt, " ") + (Join(ItemTexts(items[1..], depth, fmt), Comma(fmt)) + rest))
  }

  lemma {:induction false} ItemsRoundTrip(items: seq<Json>, depth: nat, fmt: bool, rest: string)
    requires |items| > 0 && ExactItems(items)
    ensures ItemsAt(Join(ItemTexts(items, depth, fmt), Comma(fmt)) + ("]" + rest)) == Got(items, rest)
    decreases items, 0
  {
    var close := "]" + rest;
    var t := Join(ItemTexts(items, depth, fmt), Comma(fmt)) + close;
    var after := AfterItem(items, depth, fmt, close);
    JoinedItems(items, depth, fmt, close);
    AfterItemStarts(items, depth, fmt, rest);
    ValueRoundTrip(items[0], depth, fmt, after);
    PrintStarts(items[0], depth, fmt);
    FirstItem(t, PrintValue(items[0], depth, fmt), items[0], after);
    if |items| == 1 {
      LastItem(after, rest);
      assert [items[0]] + [] == items;
    } else {
      var more := Join(ItemTexts(items[1..], depth, fmt), Comma(fmt)) + close;
      ItemsRoundTrip(items[1..], depth, fmt, rest);
      NextItems(after, fmt, more);
      assert items == [items[0]] + items[1..];
    }
  }

  lemma AfterItemStarts(items: seq<Json>, depth: nat, fmt: bool, rest: string)
    requires |items| > 0 && ExactItems(items)
    ensures EndsNumber(AfterItem(items, depth, fmt, "]" + rest))
    ensures AfterItem(items, depth, fmt, "]" + rest)[0] == if |items| == 1 then ']' else ','
  {
  }

  lemma FirstItem(t: string, text: string, v: Json, after: string)
    requires t == text + after && StartsValue(text) && |after| > 0 && after[0] > ' ' && ValueAt(t) == Got(v, after)
    ensures ItemsAt(t) == PrependTo([v], MoreItemsAt(after))
  {
    assert t[0] == text[0];
    NoSkip(t);
    NoSkip(after);
  }

  lemma LastItem(after: string, rest: string)
    requires after == "]" + rest
    ensures MoreItemsAt(after) == Got([], rest)
  {
    assert after[0] == ']' && after[1..] == rest;
  }

  lemma NextItems(after: string, fmt: bool, more: string)
    requires after == "," + (OnlyIf(fmt, " ") + more)
    ensures MoreItemsAt(after) == ItemsAt(more)
  {
    assert after[0] == ',' && after[1..] == OnlyIf(fmt, " ") + more;
    ItemsAfterSpace(fmt, more);
  }

  lemma ItemsAfterSpace(fmt: bool, t: string)
    ensures ItemsAt(OnlyIf(fmt, " ") + t) == ItemsAt(t)
  {
    if fmt {
      assert (" " + t)[1..] == t;
      assert SkipSpace(" " + t) == SkipSpace(t);
      assert ItemAt(" " + t) == ItemAt(t);
    } else {
      assert "" + t == t;
    }
  }

  // Steps of the grammar, on texts already split.

  lemma ObjectShape(t: string, body: string, members: seq<Member>, rest: string)
    requires At(t, 0) == '{' && SkipSpace(t[1..]) == body
    requires At(body, 0) != '}' && MembersAt(body) == Got(members, rest)
    ensures ObjectAt(t) == Got(Object(members), rest)
  {
  }

  lemma MembersShape(t: string, m: Member, after: string, a: string, more: seq<Member>, rest: string)
    requires MemberAt(t) == Got(m, after) && SkipSpace(after) == a && MoreMembersAt(a) == Got(more, rest)
    ensures MembersAt(t) == Got([m] + more, rest)
  {
  }

  lemma MemberShape(t: string, m: Member, u: string, w: string, after: string)
    requires StringAt(SkipSpace(t)) == Got(m.key, u)
    requires |u| > 0 && u[0] == ':' && SkipSpace(u[1..]) == w && ValueAt(w) == Got(m.value, after)
    ensures MemberAt(t) == Got(m, after)
  {
    NoSkip(u);
  }

  lemma MembersSkip(t: string, u: string)
    requires SkipSpace(t) == SkipSpace(u)
    ensures MemberAt(t) == MemberAt(u) && MembersAt(t) == MembersAt(u)
  {
  }

  lemma Assoc(a: string, b: string, c: string)
    ensures (a + b) + c == a + (b + c)
  {
  }

  function AfterLine(last: bool, fmt: bool, more: string): string {
    (if last then "" else ",") + (OnlyIf(fmt, "\n") + more)
  }

  lemma LineSplit(name: string, value: string, last: bool, depth: nat, fmt: bool, more: string)
    ensures Line(name, value, last, depth, fmt) + more
         == OnlyIf(fmt, Spaces(depth)) + (name + (Colon(fmt) + (value + AfterLine(last, fmt, more))))
  {
    var indent, colon := OnlyIf(fmt, Spaces(depth)), Colon(fmt);
    var comma, end := if last then "" else ",", OnlyIf(fmt, "\n");
    var tail := value + (comma + (end + more));
    Assoc(LineHead(name, depth, fmt), LineTail(value, last, fmt), more);
    assert LineTail(value, last, fmt) + more == tail by {
      Assoc(value + comma, end, more);
      Assoc(value, comma, end + more);
    }
    assert LineHead(name, depth, fmt) + tail == indent + (name + (colon + tail)) by {
      Assoc(indent + name, colon, tail);
      Assoc(indent, name, colon + tail);
    }
  }

  function LinesOf(members: seq<Member>, depth: nat, fmt: bool): string
    requires ExactMembers(members)
  {
    Lines(NameTexts(members), ValueTexts(members, depth, fmt), depth, fmt)
  }

  /** The first member's value, and all that follows it. */
  function FirstValue(members: seq<Member>, depth: nat, fmt: bool, close: string): string
    requires |members| > 0 && ExactMembers(members)
  {
    PrintValue(members[0].value, depth, fmt) + AfterLine(|members| == 1, fmt, LinesOf(members[1..], depth, fmt) + close)
  }

  /** The members' lines, without the indentation of the first. */
  function FirstLine(members: seq<Member>, depth: nat, fmt: bool, close: string): string
    requires |members| > 0 && ExactMembers(members)
  {
    PrintString(members[0].key) + (Colon(fmt) + FirstValue(members, depth, fmt, close))
  }

  lemma LinesFirst(members: seq<Member>, depth: nat, fmt: bool, close: string)
    requires |members| > 0 && ExactMembers(members)
    ensures LinesOf(members, depth, fmt) + close
         == OnlyIf(fmt, Spaces(depth)) + FirstLine(members, depth, fmt, close)
    ensures SkipSpace(LinesOf(members, depth, fmt) + close) == FirstLine(members, depth, fmt, close)
    ensures FirstLine(members, depth, fmt, close)[..1] == "\""
  {
    var names, values := NameTexts(members), ValueTexts(members, depth, fmt);
    assert names[0] == PrintString(members[0].key) && names[1..] == NameTexts(members[1..]);
    assert values[0] == PrintValue(members[0].value, depth, fmt);
    assert values[1..] == ValueTexts(members[1..], depth, fmt);
    var line, more := Line(names[0], values[0], |names| == 1, depth, fmt), LinesOf(members[1..], depth, fmt);
    assert LinesOf(members, depth, fmt) == line + more;
    Assoc(line, more, close);
    LineSplit(names[0], values[0], |names| == 1, depth, fmt, more + close);
    var body := FirstLine(members, depth, fmt, close);
    assert body[0] == names[0][0];
    SkipIndent(fmt, depth, body);
    NoSkip(body);
  }

  lemma {:induction false} MemberRoundTrip(members: seq<Member>, depth: nat, fmt: bool, close: string)
    requires |members| > 0 && ExactMembers(members)
    requires |close| > 0 && (close[0] == ' ' || close[0] == '}')
    ensures MemberAt(FirstLine(members, depth, fmt, close))
         == Got(members[0], AfterLine(|members| == 1, fmt, LinesOf(members[1..], depth, fmt) + close))
    decreases members[0].value, 2
  {
    var m, after := members[0], AfterLine(|members| == 1, fmt, LinesOf(members[1..], depth, fmt) + close);
    AfterLineStarts(|members| == 1, fmt, LinesOf(members[1..], depth, fmt), close);
    ValueRoundTrip(m.value, depth, fmt, after);
    PrintStarts(m.value, depth, fmt);
    var value := FirstValue(members, depth, fmt, close);
    assert value[0] == PrintValue(m.value, depth, fmt)[0];
    MemberText(m, fmt, value, after);
  }

  lemma MemberText(m: Member, fmt: bool, value: string, after: string)
    requires NulFree(m.key) && StartsValue(value) && ValueAt(value) == Got(m.value, after)
    ensures MemberAt(PrintString(m.key) + (Colon(fmt) + value)) == Got(m, after)
  {
    var u := Colon(fmt) + value;
    var t := PrintString(m.key) + u;
    assert t[0] == PrintString(m.key)[0];
    NoSkip(t);
    StringRoundTrip(m.key, u);
    NoSkip(value);
    assert u[1..] == OnlyIf(fmt, " ") + value;
    if fmt {
      assert u[1..][1..] == value;
    }
    assert SkipSpace(u[1..]) == value;
    MemberShape(t, m, u, value, after);
  }

  lemma AfterLineStarts(last: bool, fmt: bool, more: string, close: string)
    requires |close| > 0 && (close[0] == ' ' || close[0] == '}') && (last ==> more == "")
    ensures EndsNumber(AfterLine(last, fmt, more + close))
  {
    var after := AfterLine(last, fmt, more + close);
    if last {
      assert after == OnlyIf(fmt, "\n") + close;
    }
    assert after[0] == if !last then ',' else if fmt then '\n' else close[0];
  }

  lemma {:induction false} MembersRoundTrip(members: seq<Member>, depth: nat, fmt: bool, outer: nat, rest: string)
    requires |members| > 0 && ExactMembers(members)
    ensures MembersAt(LinesOf(members, depth, fmt) + (OnlyIf(fmt, Spaces(outer)) + ("}" + rest))) == Got(members, rest)
    decreases members, 0
  {
    var brace := "}" + rest;
    var close := OnlyIf(fmt, Spaces(outer)) + brace;
    var t, body := LinesOf(members, depth, fmt) + close, FirstLine(members, depth, fmt, close);
    var more := LinesOf(members[1..], depth, fmt) + close;
    var after := AfterLine(|members| == 1, fmt, more);
    LinesFirst(members, depth, fmt, close);
    NoSkip(body);
    MembersSkip(t, body);
    assert close[0] == if fmt && outer > 0 then ' ' else '}';
    MemberRoundTrip(members, depth, fmt, close);
    if |members| == 1 {
      assert more == close;
      LastMember(body, members[0], after, fmt, outer, rest);
      assert [members[0]] == members;
    } else {
      MembersRoundTrip(members[1..], depth, fmt, outer, rest);
      AfterComma(after, fmt, more);
      MembersShape(body, members[0], after, after, members[1..], rest);
      assert [members[0]] + members[1..] == members;
    }
  }

  lemma LastMember(body: string, m: Member, after: string, fmt: bool, outer: nat, rest: string)
    requires MemberAt(body) == Got(m, after)
    requires after == AfterLine(true, fmt, OnlyIf(fmt, Spaces(outer)) + ("}" + rest))
    ensures MembersAt(body) == Got([m], rest)
  {
    var brace := "}" + rest;
    var close := OnlyIf(fmt, Spaces(outer)) + brace;
    assert after == OnlyIf(fmt, "\n") + close;
    SkipIndent(fmt, outer, brace);
    NoSkip(brace);
    assert brace[0] == '}' && brace[1..] == rest;
    MembersShape(body, m, after, brace, [], rest);
    assert [m] + [] == [m];
  }

  lemma AfterComma(after: string, fmt: bool, more: string)
    requires after == AfterLine(false, fmt, more)
    ensures SkipSpace(after) == after && MoreMembersAt(after) == MembersAt(more)
  {
    NoSkip(after);
    assert after[0] == ',' && after[1..] == OnlyIf(fmt, "\n") + more;
    if fmt {
      SkipNewline(more);
    } else {
      assert "" + more == more;
    }
    MembersSkip(after[1..], more);
  }

  lemma {:induction false} ObjectRoundTrip(v: Json, depth: nat, fmt: bool, rest: string)
    requires v.Object? && Exact(v)
    ensures At(PrintValue(v, depth, fmt) + rest, 0) == '{'
    ensures ObjectAt(PrintValue(v, depth, fmt) + rest) == Got(v, rest)
    decreases v, 0
  {
    var t := PrintValue(v, depth, fmt) + rest;
    var brace := "}" + rest;
    var close := OnlyIf(fmt, Spaces(depth)) + brace;
    var lines := LinesOf(v.members, depth + 1, fmt);
    var u := lines + close;
    ObjectText(lines, depth, fmt, rest);
    assert t[0] == '{' && t[1..] == OnlyIf(fmt, "\n") + u;
    if |v.members| == 0 {
      assert u == close;
      SkipIndent(fmt, depth, brace);
      NoSkip(brace);
      assert brace[1..] == rest;
    } else {
      var body := FirstLine(v.members, depth + 1, fmt, close);
      LinesFirst(v.members, depth + 1, fmt, close);
      assert body[0] == '"';
      SkipIndent(fmt, depth + 1, body);
      NoSkip(body);
      MembersRoundTrip(v.members, depth + 1, fmt, depth, rest);
      MembersSkip(u, body);
      ObjectShape(t, body, v.members, rest);
    }
  }

  lemma ObjectText(lines: string, depth: nat, fmt: bool, rest: string)
    ensures "{" + OnlyIf(fmt, "\n") + lines + OnlyIf(fmt, Spaces(depth)) + "}" + rest
         == "{" + (OnlyIf(fmt, "\n") + (lines + (OnlyIf(fmt, Spaces(depth)) + ("}" + rest))))
  {
    var head, indent := "{" + OnlyIf(fmt, "\n"), OnlyIf(fmt, Spaces(depth));
    Assoc(head + lines + indent, "}", rest);
    Assoc(head + lines, indent, "}" + rest);
    Assoc(head, lines, indent + ("}" + rest));
    Assoc("{", OnlyIf(fmt, "\n"), lines + (indent + ("}" + rest)));
  }

  /** Both modes, at any depth, parse to the tree that was printed; `cJSON_Parse`
      accepts the text that `cJSON_Print` and `cJSON_PrintUnformatted` produce. */
  lemma ParsePrinted(v: Json, fmt: bool)
    requires Exact(v)
    ensures Parse(PrintValue(v, 0, fmt)) == Got(v, "")
  {
    PrintStarts(v, 0, fmt);
    NoSkip(PrintValue(v, 0, fmt));
    ValueRoundTrip(v, 0, fmt, "");
    assert PrintValue(v, 0, fmt) + "" == PrintValue(v, 0, fmt);
  }
}
