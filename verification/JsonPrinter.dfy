/** Rendering a tree to text: what is printed, and the measured buffers it is printed into. */
module JsonPrinter {
  import opened Decimal
  import opened JsonStrings
  import opened JsonValue

  // ---------- the text of a tree ----------

  function Spaces(n: nat): (s: string)
    ensures |s| == n
  {
    if n == 0 then "" else " " + Spaces(n - 1)
  }

  /** `s` in the indented form only. */
  function OnlyIf(fmt: bool, s: string): string { if fmt then s else "" }

  function Comma(fmt: bool): string { if fmt then ", " else "," }

  function Colon(fmt: bool): string { if fmt then ": " else ":" }

  function Join(texts: seq<string>, sep: string): string {
    if |texts| == 0 then ""
    else if |texts| == 1 then texts[0]
    else texts[0] + sep + Join(texts[1..], sep)
  }

  function LineHead(name: string, depth: nat, fmt: bool): string {
    OnlyIf(fmt, Spaces(depth)) + name + Colon(fmt)
  }

  function LineTail(value: string, last: bool, fmt: bool): string {
    value + (if last then "" else ",") + OnlyIf(fmt, "\n")
  }

  /** One line of an object: indentation, name, value, and a comma unless it is the last. */
  function Line(name: string, value: string, last: bool, depth: nat, fmt: bool): string {
    LineHead(name, depth, fmt) + LineTail(value, last, fmt)
  }

  function Lines(names: seq<string>, values: seq<string>, depth: nat, fmt: bool): string
    requires |names| == |values|
  {
    if |names| == 0 then ""
    else Line(names[0], values[0], |names| == 1, depth, fmt) + Lines(names[1..], values[1..], depth, fmt)
  }

  /** The text of `v` inside `depth` enclosing containers; `fmt` selects the indented form. */
  function PrintValue(v: Json, depth: nat, fmt: bool): string
    requires Exact(v)
    decreases v, 1
  {
    match v
    case Null => "null"
    case False => "false"
    case True => "true"
    case Number(r) => Text(r.Floor)
    case Str(t) => PrintString(t)
    case Array(items) => "[" + Join(ItemTexts(items, depth + 1, fmt), Comma(fmt)) + "]"
    case Object(members) =>
      "{" + OnlyIf(fmt, "\n") + Lines(NameTexts(members), ValueTexts(members, depth + 1, fmt), depth + 1, fmt)
      + OnlyIf(fmt, Spaces(depth)) + "}"
  }

  function ItemTexts(items: seq<Json>, depth: nat, fmt: bool): (texts: seq<string>)
    requires ExactItems(items)
    ensures |texts| == |items|
    decreases items, 0
  {
    if |items| == 0 then [] else [PrintValue(items[0], depth, fmt)] + ItemTexts(items[1..], depth, fmt)
  }

  function ValueTexts(members: seq<Member>, depth: nat, fmt: bool): (texts: seq<string>)
    requires ExactMembers(members)
    ensures |texts| == |members|
    decreases members, 0
  {
    if |members| == 0 then [] else [PrintValue(members[0].value, depth, fmt)] + ValueTexts(members[1..], depth, fmt)
  }

  function NameTexts(members: seq<Member>): (texts: seq<string>)
    ensures |texts| == |members|
  {
    if |members| == 0 then [] else [PrintString(members[0].key)] + NameTexts(members[1..])
  }

  // ---------- printed text is a C string ----------

  predicate AllNulFree(texts: seq<string>) {
    forall k :: 0 <= k < |texts| ==> NulFree(texts[k])
  }

  lemma {:induction false} SpacesNulFree(n: nat)
    ensures NulFree(Spaces(n))
  {
    if n > 0 {
      SpacesNulFree(n - 1);
    }
  }

  lemma {:induction false} JoinNulFree(texts: seq<string>, sep: string)
    requires AllNulFree(texts) && NulFree(sep)
    ensures NulFree(Join(texts, sep))
  {
    if |texts| > 1 {
      JoinNulFree(texts[1..], sep);
    }
  }

  lemma {:induction false} LinesNulFree(names: seq<string>, values: seq<string>, depth: nat, fmt: bool)
    requires |names| == |values| && AllNulFree(names) && AllNulFree(values)
    ensures NulFree(Lines(names, values, depth, fmt))
  {
    if |names| > 0 {
      SpacesNulFree(depth);
      assert NulFree(Line(names[0], values[0], |names| == 1, depth, fmt));
      LinesNulFree(names[1..], values[1..], depth, fmt);
    }
  }

  lemma DigitsNulFree(n: nat)
    ensures NulFree(Digits(n))
  {
    assert AllDigits(Digits(n));
  }

  lemma {:induction false} PrintNulFree(v: Json, depth: nat, fmt: bool)
    requires Exact(v)
    ensures NulFree(PrintValue(v, depth, fmt))
    decreases v, 1
  {
    match v {
      case Number(r) => DigitsNulFree(if r.Floor < 0 then -r.Floor else r.Floor);
      case Array(items) =>
        ItemsNulFree(items, depth + 1, fmt);
        JoinNulFree(ItemTexts(items, depth + 1, fmt), Comma(fmt));
      case Object(members) =>
        MembersNulFree(members, depth + 1, fmt);
        LinesNulFree(NameTexts(members), ValueTexts(members, depth + 1, fmt), depth + 1, fmt);
        SpacesNulFree(depth);
      case _ =>
    }
  }

  lemma {:induction false} ItemsNulFree(items: seq<Json>, depth: nat, fmt: bool)
    requires ExactItems(items)
    ensures AllNulFree(ItemTexts(items, depth, fmt))
    decreases items, 0
  {
    if |items| > 0 {
      PrintNulFree(items[0], depth, fmt);
      ItemsNulFree(items[1..], depth, fmt);
    }
  }

  lemma {:induction false} MembersNulFree(members: seq<Member>, depth: nat, fmt: bool)
    requires ExactMembers(members)
    ensures AllNulFree(ValueTexts(members, depth, fmt)) && AllNulFree(NameTexts(members))
    decreases members, 0
  {
    if |members| > 0 {
      PrintNulFree(members[0].value, depth, fmt);
      MembersNulFree(members[1..], depth, fmt);
    }
  }

  // ---------- C string helpers ----------

  method StrLen(a: array<char>, ghost t: string) returns (n: nat)
    requires Holds(a, t)
    ensures n == |t|
  {
    n := 0;
    while a[n] != '\0'
      invariant n <= |t|
      decreases |t| - n
    {
      n := n + 1;
    }
  }

  /** Copies the string and its terminator to `dst[at..]`. */
  method StrCpy(dst: array<char>, at: nat, src: array<char>, ghost t: string)
    requires Holds(src, t) && dst != src && at + |t| < dst.Length
    modifies dst
    ensures dst[..at + |t|] == old(dst[..at]) + t && dst[at + |t|] == '\0'
  {
    var i := 0;
    while src[i] != '\0'
      invariant 0 <= i <= |t|
      invariant dst[..at + i] == old(dst[..at]) + t[..i]
      decreases |t| - i
    {
      dst[at + i] := src[i];
      i := i + 1;
    }
    dst[at + i] := '\0';
  }

  /** Buffer by buffer, `bufs` holds `texts`. */
  ghost predicate AllHold(bufs: seq<array<char>>, texts: seq<string>)
    reads bufs
  {
    |bufs| == |texts| && forall k :: 0 <= k < |bufs| ==> Holds(bufs[k], texts[k])
  }

  // ---------- the printers ----------

  /** The lengths the first pass adds up. */
  function Total(texts: seq<string>, extra: nat): nat {
    if |texts| == 0 then 0 else |texts[0]| + extra + Total(texts[1..], extra)
  }

  lemma {:induction false} JoinFits(texts: seq<string>, fmt: bool)
    ensures |Join(texts, Comma(fmt))| <= Total(texts, if fmt then 3 else 2)
  {
    if |texts| > 1 {
      JoinFits(texts[1..], fmt);
    }
  }

  lemma {:induction false} LinesFit(names: seq<string>, values: seq<string>, depth: nat, fmt: bool)
    requires |names| == |values|
    ensures |Lines(names, values, depth, fmt)| <= Total(names, 0) + Total(values, if fmt then 4 + depth else 2)
  {
    if |names| > 0 {
      LinesFit(names[1..], values[1..], depth, fmt);
    }
  }

  /** `sprintf("%d")` into the 21 characters allocated for it. */
  method PrintNumber(n: int) returns (str: array<char>)
    requires INT_MIN <= n <= INT_MAX
    ensures fresh(str) && Holds(str, Text(n))
  {
    var text := Text(n);
    var digits := if n < 0 then -n else n;
    DigitsLength(digits, 10);
    DigitsNulFree(digits);
    str := new char[21];
    forall k | 0 <= k < |text| {
      str[k] := text[k];
    }
    str[|text|] := '\0';
  }

  method StrDup(text: string) returns (copy: array<char>)
    requires NulFree(text)
    ensures fresh(copy) && Holds(copy, text)
  {
    copy := new char[|text| + 1];
    forall k | 0 <= k < |text| {
      copy[k] := text[k];
    }
    copy[|text|] := '\0';
  }

  /** Appends `src` to what `out` holds up to `at`, as `strcpy` and the `strlen` after it do. */
  method Append(out: array<char>, at: nat, src: array<char>, ghost t: string) returns (ptr: nat)
    requires Holds(src, t) && out != src && at + |t| < out.Length
    modifies out
    ensures ptr == at + |t| && out[..ptr] == old(out[..at]) + t
  {
    StrCpy(out, at, src, t);
    var n := StrLen(src, t);
    ptr := at + n;
  }

  /** Composes one entry of an array. */
  method ComposeItem(out: array<char>, at: nat, entry: array<char>, ghost text: string, last: bool, fmt: bool)
    returns (ptr: nat)
    requires Holds(entry, text) && out != entry
    requires at + |text| + (if last then 0 else |Comma(fmt)|) < out.Length
    modifies out
    ensures ptr == at + |text| + (if last then 0 else |Comma(fmt)|)
    ensures out[..ptr] == old(out[..at]) + text + (if last then "" else Comma(fmt))
  {
    ptr := Append(out, at, entry, text);
    if !last {
      out[ptr] := ',';
      ptr := ptr + 1;
      if fmt {
        out[ptr] := ' ';
        ptr := ptr + 1;
      }
      out[ptr] := '\0';
    }
  }

  /** Composes the entries of an array into `out`, from just after the bracket; every
      copy and separator stays inside the measured length. */
  method ComposeItems(out: array<char>, entries: seq<array<char>>, ghost texts: seq<string>, fmt: bool)
    returns (ptr: nat)
    requires AllHold(entries, texts) && out !in entries
    requires out.Length >= |Join(texts, Comma(fmt))| + 3
    modifies out
    ensures ptr == |Join(texts, Comma(fmt))| + 1
    ensures out[..ptr] == old(out[..1]) + Join(texts, Comma(fmt))
  {
    ptr := 1;
    ghost var whole := out[..1] + Join(texts, Comma(fmt));
    out[ptr] := '\0';
    var i := 0;
    assert texts[0..] == texts;
    while i < |entries|
      invariant 0 <= i <= |entries|
      invariant 0 < ptr <= out.Length && ptr + |Join(texts[i..], Comma(fmt))| == |whole|
      invariant out[..ptr] + Join(texts[i..], Comma(fmt)) == whole
      invariant AllHold(entries, texts)
    {
      JoinStep(texts, i, Comma(fmt), out[..ptr]);
      ptr := ComposeItem(out, ptr, entries[i], texts[i], i == |entries| - 1, fmt);
      i := i + 1;
    }
  }

  lemma JoinStep(texts: seq<string>, i: nat, sep: string, before: string)
    requires i < |texts|
    ensures var item := texts[i] + (if i == |texts| - 1 then "" else sep);
            |Join(texts[i..], sep)| == |item| + |Join(texts[i + 1..], sep)|
            && before + Join(texts[i..], sep)
            == before + texts[i] + (if i == |texts| - 1 then "" else sep) + Join(texts[i + 1..], sep)
  {
    assert texts[i..][0] == texts[i] && texts[i..][1..] == texts[i + 1..];
  }

  method StoreSpaces(out: array<char>, at: nat, n: nat) returns (ptr: nat)
    requires at + n <= out.Length
    modifies out
    ensures ptr == at + n && out[..ptr] == old(out[..at]) + Spaces(n)
  {
    ptr := at;
    var j := 0;
    while j < n
      invariant 0 <= j <= n && ptr == at + j
      invariant out[..ptr] + Spaces(n - j) == old(out[..at]) + Spaces(n)
    {
      assert Spaces(n - j) == " " + Spaces(n - j - 1);
      assert out[..ptr] + Spaces(n - j) == (out[..ptr] + " ") + Spaces(n - j - 1);
      out[ptr] := ' ';
      ptr, j := ptr + 1, j + 1;
    }
  }

  method ComposeHead(out: array<char>, at: nat, name: array<char>, ghost text: string, depth: nat, fmt: bool)
    returns (ptr: nat)
    requires Holds(name, text) && out != name && at + |LineHead(text, depth, fmt)| < out.Length
    modifies out
    ensures ptr == at + |LineHead(text, depth, fmt)|
    ensures out[..ptr] == old(out[..at]) + LineHead(text, depth, fmt)
  {
    ptr := ComposePad(out, at, depth, fmt);
    ptr := Append(out, ptr, name, text);
    ptr := ComposeColon(out, ptr, fmt);
  }

  method ComposePad(out: array<char>, at: nat, n: nat, fmt: bool) returns (ptr: nat)
    requires at + |OnlyIf(fmt, Spaces(n))| <= out.Length
    modifies out
    ensures ptr == at + |OnlyIf(fmt, Spaces(n))| && out[..ptr] == old(out[..at]) + OnlyIf(fmt, Spaces(n))
  {
    ptr := at;
    if fmt {
      ptr := StoreSpaces(out, ptr, n);
    }
  }

  method ComposeColon(out: array<char>, at: nat, fmt: bool) returns (ptr: nat)
    requires at + |Colon(fmt)| <= out.Length
    modifies out
    ensures ptr == at + |Colon(fmt)| && out[..ptr] == old(out[..at]) + Colon(fmt)
  {
    ptr := at;
    out[ptr] := ':';
    ptr := ptr + 1;
    if fmt {
      out[ptr] := ' ';
      ptr := ptr + 1;
    }
  }

  method ComposeTail(out: array<char>, at: nat, value: array<char>, ghost text: string, last: bool, fmt: bool)
    returns (ptr: nat)
    requires Holds(value, text) && out != value && at + |LineTail(text, last, fmt)| < out.Length
    modifies out
    ensures ptr == at + |LineTail(text, last, fmt)|
    ensures out[..ptr] == old(out[..at]) + LineTail(text, last, fmt)
  {
    ptr := Append(out, at, value, text);
    if !last {
      out[ptr] := ',';
      ptr := ptr + 1;
    }
    if fmt {
      out[ptr] := '\n';
      ptr := ptr + 1;
    }
    out[ptr] := '\0';
  }

  /** Composes the lines of an object into `out` from `start` on. */
  method ComposeLines(out: array<char>, start: nat, names: seq<array<char>>, entries: seq<array<char>>,
                      ghost nameTexts: seq<string>, ghost texts: seq<string>, depth: nat, fmt: bool)
    returns (ptr: nat)
    requires AllHold(names, nameTexts) && AllHold(entries, texts) && |names| == |entries|
    requires out !in names && out !in entries
    requires out.Length > start + |Lines(nameTexts, texts, depth, fmt)|
    modifies out
    ensures ptr == start + |Lines(nameTexts, texts, depth, fmt)|
    ensures out[..ptr] == old(out[..start]) + Lines(nameTexts, texts, depth, fmt)
  {
    ptr := start;
    ghost var whole := out[..start] + Lines(nameTexts, texts, depth, fmt);
    var i := 0;
    assert texts[0..] == texts && nameTexts[0..] == nameTexts;
    while i < |entries|
      invariant 0 <= i <= |entries|
      invariant ptr <= out.Length && ptr + |Lines(nameTexts[i..], texts[i..], depth, fmt)| == |whole|
      invariant out[..ptr] + Lines(nameTexts[i..], texts[i..], depth, fmt) == whole
      invariant AllHold(names, nameTexts) && AllHold(entries, texts)
    {
      LinesStep(nameTexts, texts, i, depth, fmt, out[..ptr]);
      ptr := ComposeLine(out, ptr, names[i], nameTexts[i], entries[i], texts[i], i == |entries| - 1, depth, fmt);
      i := i + 1;
    }
  }

  method ComposeLine(out: array<char>, at: nat, name: array<char>, ghost nameText: string, value: array<char>,
                     ghost text: string, last: bool, depth: nat, fmt: bool)
    returns (ptr: nat)
    requires Holds(name, nameText) && Holds(value, text) && out != name && out != value
    requires at + |Line(nameText, text, last, depth, fmt)| < out.Length
    modifies out
    ensures ptr == at + |Line(nameText, text, last, depth, fmt)|
    ensures out[..ptr] == old(out[..at]) + Line(nameText, text, last, depth, fmt)
  {
    ptr := ComposeHead(out, at, name, nameText, depth, fmt);
    ptr := ComposeTail(out, ptr, value, text, last, fmt);
  }

  lemma LinesStep(names: seq<string>, values: seq<string>, i: nat, depth: nat, fmt: bool,
                                     before: string)
    requires i < |names| == |values|
    ensures var line := Line(names[i], values[i], i == |names| - 1, depth, fmt);
            var rest := Lines(names[i + 1..], values[i + 1..], depth, fmt);
            Lines(names[i..], values[i..], depth, fmt) == line + rest
            && before + Lines(names[i..], values[i..], depth, fmt) == (before + line) + rest
  {
    assert names[i..][0] == names[i] && names[i..][1..] == names[i + 1..];
    assert values[i..][0] == values[i] && values[i..][1..] == values[i + 1..];
  }

  lemma {:induction false} TextsAt(items: seq<Json>, i: nat, depth: nat, fmt: bool)
    requires ExactItems(items) && i < |items|
    ensures Exact(items[i]) && ItemTexts(items, depth, fmt)[i] == PrintValue(items[i], depth, fmt)
  {
    if i > 0 {
      TextsAt(items[1..], i - 1, depth, fmt);
    }
  }

  lemma {:induction false} MemberTextsAt(members: seq<Member>, i: nat, depth: nat, fmt: bool)
    requires ExactMembers(members) && i < |members|
    ensures NulFree(members[i].key) && Exact(members[i].value)
    ensures NameTexts(members)[i] == PrintString(members[i].key)
    ensures ValueTexts(members, depth, fmt)[i] == PrintValue(members[i].value, depth, fmt)
  {
    if i > 0 {
      MemberTextsAt(members[1..], i - 1, depth, fmt);
    }
  }

  /** `print_value`: the text of the tree, in a buffer of its own. */
  method Print(v: Json, depth: nat, fmt: bool) returns (out: array<char>)
    requires Exact(v)
    ensures fresh(out) && Holds(out, PrintValue(v, depth, fmt))
    decreases v, 2
  {
    match v {
      case Null => out := StrDup("null");
      case False => out := StrDup("false");
      case True => out := StrDup("true");
      case Number(r) => out := PrintNumber(r.Floor);
      case Str(t) => out := PrintStringPtr(t);
      case Array(items) => out := PrintArray(v, depth, fmt);
      case Object(members) => out := PrintObject(v, depth, fmt);
    }
  }

  method PrintArray(v: Json, depth: nat, fmt: bool) returns (out: array<char>)
    requires v.Array? && Exact(v)
    ensures fresh(out) && Holds(out, PrintValue(v, depth, fmt))
    decreases v, 1
  {
    ghost var texts := ItemTexts(v.items, depth + 1, fmt);
    var len, i := 5, 0;
    var entries: seq<array<char>> := [];
    ghost var extra := if fmt then 3 else 2;
    assert texts[0..] == texts;
    while i < |v.items|
      invariant 0 <= i <= |v.items| && |entries| == i
      invariant len + Total(texts[i..], extra) == 5 + Total(texts, extra)
      invariant AllHold(entries, texts[..i])
    {
      TextsAt(v.items, i, depth + 1, fmt);
      TotalStep(texts, i, extra);
      var ret := Print(v.items[i], depth + 1, fmt);
      var n := StrLen(ret, texts[i]);
      AllHoldAppend(entries, texts, ret);
      entries := entries + [ret];
      len := len + n + 2 + (if fmt then 1 else 0);
      i := i + 1;
    }
    assert texts[..i] == texts;
    out := ComposeArray(entries, texts, len, fmt);
    PrintNulFree(v, depth, fmt);
    Terminated(out, PrintValue(v, depth, fmt));
  }

  /** `malloc(len)` and the composition of an array's text. */
  method ComposeArray(entries: seq<array<char>>, ghost texts: seq<string>, len: nat, fmt: bool)
    returns (out: array<char>)
    requires AllHold(entries, texts) && len == 5 + Total(texts, if fmt then 3 else 2)
    ensures fresh(out) && Ends(out, "[" + Join(texts, Comma(fmt)) + "]")
  {
    JoinFits(texts, fmt);
    out := new char[len];
    out[0] := '[';
    var ptr := ComposeItems(out, entries, texts, fmt);
    ComposeClose(out, ptr, ']');
  }

  predicate Ends(a: array<char>, t: string)
    reads a
  {
    |t| < a.Length && a[..|t|] == t && a[|t|] == '\0'
  }

  lemma Terminated(a: array<char>, t: string)
    requires Ends(a, t) && NulFree(t)
    ensures Holds(a, t)
  {
  }

  lemma TotalStep(texts: seq<string>, i: nat, extra: nat)
    requires i < |texts|
    ensures Total(texts[i..], extra) == |texts[i]| + extra + Total(texts[i + 1..], extra)
  {
    assert texts[i..][0] == texts[i] && texts[i..][1..] == texts[i + 1..];
  }

  lemma AllHoldAppend(bufs: seq<array<char>>, texts: seq<string>, buf: array<char>)
    requires |bufs| < |texts| && AllHold(bufs, texts[..|bufs|]) && Holds(buf, texts[|bufs|])
    ensures AllHold(bufs + [buf], texts[..|bufs| + 1])
  {
  }

  method PrintObject(v: Json, outer: nat, fmt: bool) returns (out: array<char>)
    requires v.Object? && Exact(v)
    ensures fresh(out) && Holds(out, PrintValue(v, outer, fmt))
    decreases v, 1
  {
    var depth := outer + 1;
    var names, entries, len := RenderMembers(v, depth, fmt);
    out := ComposeObject(names, entries, NameTexts(v.members), ValueTexts(v.members, depth, fmt), len, depth, fmt);
    PrintNulFree(v, outer, fmt);
    Terminated(out, PrintValue(v, outer, fmt));
  }

  /** The first pass of `print_object`: the rendered names and values, and the length they add up to. */
  method RenderMembers(v: Json, depth: nat, fmt: bool)
    returns (names: seq<array<char>>, entries: seq<array<char>>, len: nat)
    requires v.Object? && Exact(v)
    ensures AllHold(names, NameTexts(v.members)) && AllHold(entries, ValueTexts(v.members, depth, fmt))
    ensures len == (if fmt then 7 + depth else 7) + Total(NameTexts(v.members), 0)
                   + Total(ValueTexts(v.members, depth, fmt), if fmt then 4 + depth else 2)
    ensures fresh(names) && fresh(entries)
    decreases v, 0
  {
    ghost var nameTexts, texts := NameTexts(v.members), ValueTexts(v.members, depth, fmt);
    ghost var extra := if fmt then 4 + depth else 2;
    len := 7;
    if fmt {
      len := len + depth;
    }
    ghost var total := len + Total(nameTexts, 0) + Total(texts, extra);
    var i := 0;
    names, entries := [], [];
    assert texts[0..] == texts && nameTexts[0..] == nameTexts;
    while i < |v.members|
      invariant 0 <= i <= |v.members| && |names| == |entries| == i
      invariant len + Total(nameTexts[i..], 0) + Total(texts[i..], extra) == total
      invariant AllHold(names, nameTexts[..i]) && AllHold(entries, texts[..i])
      invariant fresh(names) && fresh(entries)
    {
      MemberTextsAt(v.members, i, depth, fmt);
      TotalStep(nameTexts, i, 0);
      TotalStep(texts, i, extra);
      var str, ret, n := RenderMember(v.members[i], depth, fmt);
      AllHoldAppend(names, nameTexts, str);
      AllHoldAppend(entries, texts, ret);
      names, entries := names + [str], entries + [ret];
      len := len + n;
      i := i + 1;
    }
    assert texts[..i] == texts && nameTexts[..i] == nameTexts;
  }

  /** One member's rendered name and value, and what they add to the length. */
  method RenderMember(m: Member, depth: nat, fmt: bool) returns (str: array<char>, ret: array<char>, added: nat)
    requires NulFree(m.key) && Exact(m.value)
    ensures Holds(str, PrintString(m.key)) && Holds(ret, PrintValue(m.value, depth, fmt))
    ensures fresh(str) && fresh(ret)
    ensures added == |PrintString(m.key)| + |PrintValue(m.value, depth, fmt)| + if fmt then 4 + depth else 2
    decreases m
  {
    str := PrintStringPtr(m.key);
    ret := Print(m.value, depth, fmt);
    var n := StrLen(ret, PrintValue(m.value, depth, fmt));
    var k := StrLen(str, PrintString(m.key));
    added := n + k + 2 + (if fmt then 2 + depth else 0);
  }

  /** `malloc(len)` and the composition of an object's text. */
  method ComposeObject(names: seq<array<char>>, entries: seq<array<char>>, ghost nameTexts: seq<string>,
                       ghost texts: seq<string>, len: nat, depth: nat, fmt: bool)
    returns (out: array<char>)
    requires AllHold(names, nameTexts) && AllHold(entries, texts) && |names| == |entries| && depth > 0
    requires len == (if fmt then 7 + depth else 7) + Total(nameTexts, 0) + Total(texts, if fmt then 4 + depth else 2)
    ensures fresh(out)
    ensures Ends(out, "{" + OnlyIf(fmt, "\n") + Lines(nameTexts, texts, depth, fmt)
                      + OnlyIf(fmt, Spaces(depth - 1)) + "}")
  {
    LinesFit(nameTexts, texts, depth, fmt);
    out := new char[len];
    var ptr := ComposeOpen(out, fmt);
    ptr := ComposeLines(out, ptr, names, entries, nameTexts, texts, depth, fmt);
    ptr := ComposePad(out, ptr, depth - 1, fmt);
    ComposeClose(out, ptr, '}');
  }

  method ComposeClose(out: array<char>, at: nat, c: char)
    requires at + 1 < out.Length
    modifies out
    ensures Ends(out, old(out[..at]) + [c])
  {
    out[at], out[at + 1] := c, '\0';
  }

  method ComposeOpen(out: array<char>, fmt: bool) returns (ptr: nat)
    requires out.Length > 2
    modifies out
    ensures ptr == |"{" + OnlyIf(fmt, "\n")| && out[..ptr] == "{" + OnlyIf(fmt, "\n")
  {
    out[0] := '{';
    ptr := 1;
    if fmt {
      out[ptr] := '\n';
      ptr := ptr + 1;
    }
    out[ptr] := '\0';
  }
}
