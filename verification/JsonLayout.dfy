/** What printed text looks like, compact and indented. */
module JsonLayout {
  import opened Decimal
  import opened JsonPrinter
  import opened JsonStrings
  import opened JsonValue

  lemma {:induction false} SpacesAreBlanks(n: nat)
    ensures |Spaces(n)| == n && forall i :: 0 <= i < n ==> Spaces(n)[i] == ' '
  {
    if n > 0 {
      SpacesAreBlanks(n - 1);
    }
  }

  lemma LeavesLayout(n: int, t: string, depth: nat, fmt: bool)
    requires INT_MIN <= n <= INT_MAX && NulFree(t)
    ensures PrintValue(Null, depth, fmt) == "null"
    ensures PrintValue(True, depth, fmt) == "true" && PrintValue(False, depth, fmt) == "false"
    ensures PrintValue(Number(n as real), depth, fmt) == if n < 0 then "-" + Digits(-n) else Digits(n)
    ensures PrintValue(Str(t), depth, fmt) == "\"" + EscapeText(t) + "\""
  {
  }

  lemma EmptyLayout(depth: nat)
    ensures PrintValue(Array([]), depth, false) == PrintValue(Array([]), depth, true) == "[]"
    ensures PrintValue(Object([]), depth, false) == "{}"
    ensures PrintValue(Object([]), depth, true) == "{\n" + Spaces(depth) + "}"
  {
  }

  /** Items on one line, with a comma, and in the indented form a blank, between two. */
  lemma ArrayLayout(a: Json, b: Json, depth: nat)
    requires Exact(a) && Exact(b) && Exact(Array([a, b]))
    ensures PrintValue(Array([a, b]), depth, false)
         == "[" + (PrintValue(a, depth + 1, false) + "," + PrintValue(b, depth + 1, false)) + "]"
    ensures PrintValue(Array([a, b]), depth, true)
         == "[" + (PrintValue(a, depth + 1, true) + ", " + PrintValue(b, depth + 1, true)) + "]"
  {
    TwoItems(a, b, depth + 1, false);
    TwoItems(a, b, depth + 1, true);
  }

  lemma TwoItems(a: Json, b: Json, depth: nat, fmt: bool)
    requires Exact(a) && Exact(b) && ExactItems([a, b])
    ensures ItemTexts([a, b], depth, fmt) == [PrintValue(a, depth, fmt), PrintValue(b, depth, fmt)]
    ensures forall sep: string ::
              Join(ItemTexts([a, b], depth, fmt), sep) == PrintValue(a, depth, fmt) + sep + PrintValue(b, depth, fmt)
  {
    assert [a, b][1..] == [b] && [b][1..] == [];
    var x, y := PrintValue(a, depth, fmt), PrintValue(b, depth, fmt);
    assert [x] + [y] == [x, y] && [x, y][1..] == [y];
  }

  /** The members of an object with names and texts of values already printed. */
  lemma TwoLines(k: string, x: string, l: string, y: string, depth: nat)
    ensures Lines([k, l], [x, y], depth, false) == (k + ":" + x + ",") + (l + ":" + y)
    ensures Lines([k, l], [x, y], depth, true)
         == (Spaces(depth) + k + ": " + x + ",\n") + (Spaces(depth) + l + ": " + y + "\n")
  {
    assert [k, l][1..] == [l] && [x, y][1..] == [y] && [l][1..] == [] && [y][1..] == [];
    TwoLinesIs(k, x, l, y, depth, false);
    TwoLinesIs(k, x, l, y, depth, true);
    OneLine(k, x, depth);
    OneLine(l, y, depth);
  }

  lemma TwoLinesIs(k: string, x: string, l: string, y: string, depth: nat, fmt: bool)
    ensures Lines([k, l], [x, y], depth, fmt) == Line(k, x, false, depth, fmt) + Line(l, y, true, depth, fmt)
  {
    assert [k, l][1..] == [l] && [x, y][1..] == [y] && [l][1..] == [] && [y][1..] == [];
    assert Lines([l], [y], depth, fmt) == Line(l, y, true, depth, fmt) + "";
  }

  lemma OneLine(k: string, x: string, depth: nat)
    ensures Line(k, x, false, depth, false) == k + ":" + x + ","
    ensures Line(k, x, true, depth, false) == k + ":" + x
    ensures Line(k, x, false, depth, true) == Spaces(depth) + k + ": " + x + ",\n"
    ensures Line(k, x, true, depth, true) == Spaces(depth) + k + ": " + x + "\n"
  {
  }

  lemma ObjectIs(k: string, a: Json, l: string, b: Json, depth: nat, fmt: bool, lines: string)
    requires Exact(a) && Exact(b) && Exact(Object([Member(k, a), Member(l, b)]))
    requires lines == Lines([PrintString(k), PrintString(l)],
                            [PrintValue(a, depth + 1, fmt), PrintValue(b, depth + 1, fmt)], depth + 1, fmt)
    ensures PrintValue(Object([Member(k, a), Member(l, b)]), depth, fmt)
         == "{" + OnlyIf(fmt, "\n") + lines + OnlyIf(fmt, Spaces(depth)) + "}"
  {
    TwoMembers(k, a, l, b, depth + 1, fmt);
  }

  /** In the compact form there is nothing between the members but a comma. */
  lemma ObjectCompact(k: string, a: Json, l: string, b: Json, depth: nat, x: string, y: string)
    requires Exact(a) && Exact(b) && Exact(Object([Member(k, a), Member(l, b)]))
    requires x == PrintValue(a, depth + 1, false) && y == PrintValue(b, depth + 1, false)
    ensures PrintValue(Object([Member(k, a), Member(l, b)]), depth, false)
         == "{" + ((PrintString(k) + ":" + x + ",") + (PrintString(l) + ":" + y)) + "}"
  {
    var lines := Lines([PrintString(k), PrintString(l)], [x, y], depth + 1, false);
    ObjectIs(k, a, l, b, depth, false, lines);
    TwoLines(PrintString(k), x, PrintString(l), y, depth + 1);
    Compact(lines);
  }

  lemma Compact(lines: string)
    ensures "{" + OnlyIf(false, "\n") + lines + OnlyIf(false, "") + "}" == "{" + lines + "}"
  {
  }

  /** In the indented form each member is on a line of its own, as deep as it is nested. */
  lemma ObjectIndented(k: string, a: Json, l: string, b: Json, depth: nat, x: string, y: string)
    requires Exact(a) && Exact(b) && Exact(Object([Member(k, a), Member(l, b)]))
    requires x == PrintValue(a, depth + 1, true) && y == PrintValue(b, depth + 1, true)
    ensures var blanks := Spaces(depth + 1);
            PrintValue(Object([Member(k, a), Member(l, b)]), depth, true)
            == "{" + "\n" + ((blanks + PrintString(k) + ": " + x + ",\n") + (blanks + PrintString(l) + ": " + y + "\n"))
               + Spaces(depth) + "}"
  {
    var lines := Lines([PrintString(k), PrintString(l)], [x, y], depth + 1, true);
    ObjectIs(k, a, l, b, depth, true, lines);
    TwoLines(PrintString(k), x, PrintString(l), y, depth + 1);
  }

  lemma TwoMembers(k: string, a: Json, l: string, b: Json, depth: nat, fmt: bool)
    requires Exact(a) && Exact(b) && ExactMembers([Member(k, a), Member(l, b)])
    ensures var ms := [Member(k, a), Member(l, b)];
            && NameTexts(ms) == [PrintString(k), PrintString(l)]
            && ValueTexts(ms, depth, fmt) == [PrintValue(a, depth, fmt), PrintValue(b, depth, fmt)]
  {
    var ms := [Member(k, a), Member(l, b)];
    assert ms[1..] == [Member(l, b)] && ms[1..][1..] == [];
  }
}
