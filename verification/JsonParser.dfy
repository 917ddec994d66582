/** The recursive-descent parser: what each routine yields, and the routines over an index. */
module JsonParser {
  import opened Decimal
  import opened JsonStrings
  import opened JsonValue

  // ---------- whitespace ----------

  function SkipSpace(t: string): (r: string)
    ensures |r| <= |t|
  {
    if |t| > 0 && '\0' < t[0] <= ' ' then SkipSpace(t[1..]) else t
  }

  method Skip(s: string, start: nat) returns (i: nat)
    requires start <= |s|
    ensures start <= i <= |s| && s[i..] == SkipSpace(s[start..])
  {
    i := start;
    while At(s, i) != '\0' && At(s, i) <= ' '
      invariant start <= i <= |s|
      invariant SkipSpace(s[i..]) == SkipSpace(s[start..])
      decreases |s| - i
    {
      assert s[i..][0] == s[i] && s[i..][1..] == s[i + 1..];
      i := i + 1;
    }
    assert |s[i..]| > 0 ==> s[i..][0] == s[i];
  }

  // ---------- numbers ----------

  function Pow10(e: int): real {
    if e >= 0 then Pow(e) as real else 1.0 / (PowPositive(-e) as real)
  }

  function PowPositive(k: nat): (p: nat)
    ensures p == Pow(k) && p > 0
  {
    if k == 0 then 1 else 10 * PowPositive(k - 1)
  }

  /** Digits read so far and the text after them. */
  datatype Digested = Digested(n: nat, count: nat, rest: string)

  function DigitsAt(t: string, acc: nat): (d: Digested)
    ensures |d.rest| + d.count == |t|
  {
    var k := Run(t);
    Digested(Accumulate(t[..k], acc), k, t[k..])
  }

  /** The integer part: one optional zero, then digits if they start with 1 to 9. */
  function IntegerAt(t: string): (d: Digested)
    ensures |d.rest| <= |t| && (At(t, 0) == '0' || '1' <= At(t, 0) <= '9' ==> |d.rest| < |t|)
  {
    var u := if At(t, 0) == '0' then t[1..] else t;
    if '1' <= At(u, 0) <= '9' then DigitsAt(u, 0) else Digested(0, 0, u)
  }

  /** A fraction, if the point is followed by a digit; its digits extend `acc`. */
  function FractionAt(t: string, acc: nat): (d: Digested)
    ensures |d.rest| <= |t|
  {
    if At(t, 0) == '.' && |t| > 1 && IsDigit(t[1]) then DigitsAt(t[1..], acc) else Digested(acc, 0, t)
  }

  datatype Exponent = Exponent(e: int, rest: string)

  function ExponentAt(t: string): (x: Exponent)
    ensures |x.rest| <= |t|
  {
    if At(t, 0) == 'e' || At(t, 0) == 'E' then
      var u := t[1..];
      var signed := At(u, 0) == '+' || At(u, 0) == '-';
      var d := DigitsAt(if signed then u[1..] else u, 0);
      Exponent(d.n * (if At(u, 0) == '-' then -1 else 1), d.rest)
    else Exponent(0, t)
  }

  /** `sign * n * pow(10, e)`, exactly. */
  function Scaled(minus: bool, n: nat, e: int): real {
    (if minus then -1.0 else 1.0) * n as real * Pow10(e)
  }

  predicate StartsNumber(t: string) {
    At(t, 0) == '-' || IsDigit(At(t, 0))
  }

  function NumberAt(t: string): (r: Parsed<Json>)
    requires StartsNumber(t)
    ensures r.Got? && |r.rest| < |t|
  {
    var minus := At(t, 0) == '-';
    var whole := IntegerAt(if minus then t[1..] else t);
    var fraction := FractionAt(whole.rest, whole.n);
    var exponent := ExponentAt(fraction.rest);
    Got(Number(Scaled(minus, fraction.n, exponent.e - fraction.count)), exponent.rest)
  }

  // ---------- values ----------

  /** The three `strncmp` tests. */
  function Keyword(t: string): (r: Parsed<Json>)
    ensures r.Got? ==> |r.rest| < |t|
  {
    if StartsWith(t, "null") then Got(Null, t[4..])
    else if StartsWith(t, "false") then Got(False, t[5..])
    else if StartsWith(t, "true") then Got(True, t[4..])
    else Rejected
  }

  function ValueAt(t: string): (r: Parsed<Json>)
    ensures r.Got? ==> |r.rest| < |t|
    decreases |t|, 1
  {
    if Keyword(t).Got? then Keyword(t)
    else if At(t, 0) == '"' then
      match StringAt(t)
      case Got(s, rest) => Got(Str(s), rest)
      case Rejected => Rejected
      case Undefined => Undefined
    else if StartsNumber(t) then NumberAt(t)
    else if At(t, 0) == '[' then ArrayAt(t)
    else if At(t, 0) == '{' then ObjectAt(t)
    else Rejected
  }

  function ArrayAt(t: string): (r: Parsed<Json>)
    requires At(t, 0) == '['
    ensures r.Got? ==> |r.rest| < |t|
    decreases |t|, 0
  {
    var u := SkipSpace(t[1..]);
    if At(u, 0) == ']' then Got(Array([]), u[1..])
    else
      match ItemsAt(u)
      case Got(items, rest) => Got(Array(items), rest)
      case Rejected => Rejected
      case Undefined => Undefined
  }

  /** An item, then what follows it. */
  function ItemsAt(t: string): (r: Parsed<seq<Json>>)
    ensures r.Got? ==> |r.rest| < |t|
    decreases |t|, 3
  {
    match ItemAt(t)
    case Got(item, rest) => PrependTo([item], MoreItemsAt(SkipSpace(rest)))
    case Rejected => Rejected
    case Undefined => Undefined
  }

  function ItemAt(t: string): (r: Parsed<Json>)
    ensures r.Got? ==> |r.rest| < |t|
    decreases |t|, 2
  {
    ValueAt(SkipSpace(t))
  }

  /** A comma and more items, or the closing bracket. */
  function MoreItemsAt(t: string): (r: Parsed<seq<Json>>)
    ensures r.Got? ==> |r.rest| < |t|
    decreases |t|, 0
  {
    if At(t, 0) == ',' then ItemsAt(t[1..])
    else if At(t, 0) == ']' then Got([], t[1..])
    else Rejected
  }

  function PrependTo<T>(prefix: seq<T>, r: Parsed<seq<T>>): (p: Parsed<seq<T>>)
    ensures p.Got? <==> r.Got?
    ensures p.Got? ==> p.rest == r.rest
  {
    match r
    case Got(values, rest) => Got(prefix + values, rest)
    case Rejected => Rejected
    case Undefined => Undefined
  }

  function ObjectAt(t: string): (r: Parsed<Json>)
    requires At(t, 0) == '{'
    ensures r.Got? ==> |r.rest| < |t|
    decreases |t|, 0
  {
    var u := SkipSpace(t[1..]);
    if At(u, 0) == '}' then Got(Object([]), u[1..])
    else
      match MembersAt(u)
      case Got(members, rest) => Got(Object(members), rest)
      case Rejected => Rejected
      case Undefined => Undefined
  }

  function MembersAt(t: string): (r: Parsed<seq<Member>>)
    ensures r.Got? ==> |r.rest| < |t|
    decreases |t|, 3
  {
    match MemberAt(t)
    case Got(member, rest) => PrependTo([member], MoreMembersAt(SkipSpace(rest)))
    case Rejected => Rejected
    case Undefined => Undefined
  }

  /** A name, a colon and a value. */
  function MemberAt(t: string): (r: Parsed<Member>)
    ensures r.Got? ==> |r.rest| < |t|
    decreases |t|, 2
  {
    match StringAt(SkipSpace(t))
    case Got(key, rest) => MemberValueAt(key, SkipSpace(rest))
    case Rejected => Rejected
    case Undefined => Undefined
  }

  function MemberValueAt(key: string, t: string): (r: Parsed<Member>)
    ensures r.Got? ==> |r.rest| < |t|
    decreases |t|, 2
  {
    if At(t, 0) != ':' then Rejected
    else
      match ValueAt(SkipSpace(t[1..]))
      case Got(value, rest) => Got(Member(key, value), rest)
      case Rejected => Rejected
      case Undefined => Undefined
  }

  function MoreMembersAt(t: string): (r: Parsed<seq<Member>>)
    ensures r.Got? ==> |r.rest| < |t|
    decreases |t|, 0
  {
    if At(t, 0) == ',' then MembersAt(t[1..])
    else if At(t, 0) == '}' then Got([], t[1..])
    else Rejected
  }

  /** `cJSON_Parse`: the first value of a text; what follows it is ignored. */
  function Parse(text: string): Parsed<Json> {
    ValueAt(SkipSpace(text))
  }

  // ---------- the routines ----------

  /** A digit loop of `parse_number`. */
  method ReadDigits(s: string, start: nat, acc: nat) returns (n: nat, num: nat)
    requires start <= |s|
    ensures num <= |s| && start <= num
    ensures DigitsAt(s[start..], acc) == Digested(n, num - start, s[num..])
  {
    n, num := acc, start;
    while '0' <= At(s, num) <= '9'
      invariant start <= num <= |s|
      invariant DigitsAt(s[start..], acc).n == DigitsAt(s[num..], n).n
      invariant Run(s[start..]) == num - start + Run(s[num..])
      decreases |s| - num
    {
      assert s[num..][0] == s[num] && s[num..][1..] == s[num + 1..];
      DigitsStep(s[num..], n);
      n := n * 10 + (s[num] as int - '0' as int);
      num := num + 1;
    }
    assert |s[num..]| > 0 ==> s[num..][0] == s[num];
    assert Run(s[num..]) == 0;
    assert s[start..][num - start..] == s[num..];
  }

  lemma {:induction false} DigitsStep(t: string, acc: nat)
    requires |t| > 0 && IsDigit(t[0])
    ensures Run(t) == 1 + Run(t[1..])
    ensures DigitsAt(t, acc).n == DigitsAt(t[1..], acc * 10 + DigitValue(t[0])).n
  {
    var k := Run(t[1..]);
    assert t[..1 + k][1..] == t[1..][..k];
  }

  method ReadInteger(s: string, start: nat) returns (n: nat, num: nat)
    requires start <= |s|
    ensures start <= num <= |s| && IntegerAt(s[start..]).n == n && IntegerAt(s[start..]).rest == s[num..]
  {
    n, num := 0, start;
    assert At(s, start) == At(s[start..], 0);
    if At(s, num) == '0' {
      num := num + 1;
      assert s[start..][1..] == s[num..];
    }
    assert At(s, num) == At(s[num..], 0);
    if '1' <= At(s, num) <= '9' {
      n, num := ReadDigits(s, num, 0);
    }
  }

  method ReadFraction(s: string, start: nat, acc: nat) returns (n: nat, num: nat, scale: int)
    requires start <= |s|
    ensures start <= num <= |s| && scale <= 0
    ensures FractionAt(s[start..], acc) == Digested(n, -scale, s[num..])
  {
    n, num, scale := acc, start, 0;
    assert At(s, start) == At(s[start..], 0);
    if At(s, num) == '.' && '0' <= At(s, num + 1) <= '9' {
      var from := num + 1;
      assert s[start..][1] == s[from] && s[start..][1..] == s[from..];
      n, num := ReadDigits(s, from, n);
      scale := from - num;
    }
  }

  method ReadExponent(s: string, start: nat) returns (e: int, num: nat)
    requires start <= |s|
    ensures start <= num <= |s| && ExponentAt(s[start..]) == Exponent(e, s[num..])
  {
    var subscale: nat, signsubscale: int := 0, 1;
    num := start;
    assert At(s, start) == At(s[start..], 0);
    if At(s, num) == 'e' || At(s, num) == 'E' {
      num := num + 1;
      ghost var u := s[num..];
      assert s[start..][1..] == u && At(s, num) == At(u, 0);
      if At(s, num) == '+' {
        num := num + 1;
      } else if At(s, num) == '-' {
        signsubscale, num := -1, num + 1;
      }
      assert s[num..] == if At(u, 0) == '+' || At(u, 0) == '-' then u[1..] else u;
      subscale, num := ReadDigits(s, num, 0);
    }
    e := subscale * signsubscale;
  }

  method ParseNumber(s: string, start: nat) returns (value: Json, end: nat)
    requires start <= |s| && StartsNumber(s[start..])
    ensures start < end <= |s| && NumberAt(s[start..]) == Got(value, s[end..])
  {
    var num, minus := start, false;
    assert At(s, start) == At(s[start..], 0);
    if At(s, num) == '-' {
      minus, num := true, num + 1;
    }
    ghost var t, from := s[start..], num;
    assert s[from..] == if minus then t[1..] else t;
    var n, point := ReadInteger(s, num);
    ghost var whole := n;
    var tail, scale;
    n, tail, scale := ReadFraction(s, point, n);
    var e, last := ReadExponent(s, tail);
    value, end := Number(Scaled(minus, n, scale + e)), last;
    NumberParts(t, minus, s[from..], Digested(n, -scale, s[tail..]), Exponent(e, s[last..]), scale + e);
  }

  lemma NumberParts(t: string, minus: bool, u: string, fraction: Digested, exponent: Exponent,
                                       e: int)
    requires StartsNumber(t) && minus == (At(t, 0) == '-') && u == if minus then t[1..] else t
    requires fraction == FractionAt(IntegerAt(u).rest, IntegerAt(u).n) && exponent == ExponentAt(fraction.rest)
    requires e == exponent.e - fraction.count
    ensures NumberAt(t) == Got(Number(Scaled(minus, fraction.n, e)), exponent.rest)
  {
  }

  method ParseValue(s: string, start: nat) returns (value: Option<Json>, end: nat)
    requires start <= |s| && ValueAt(s[start..]) != Undefined
    ensures Reached(ValueAt(s[start..]), s, start, value, end)
    decreases |s| - start, 1
  {
    ghost var t := s[start..];
    assert At(s, start) == At(t, 0);
    value, end := None, 0;
    if StartsWith(s[start..], "null") {
      return Some(Null), start + 4;
    } else if StartsWith(s[start..], "false") {
      return Some(False), start + 5;
    } else if StartsWith(s[start..], "true") {
      return Some(True), start + 4;
    } else if At(s, start) == '"' {
      var text, next := ParseString(s, start);
      if text.Some? {
        return Some(Str(text.value)), next;
      }
    } else if At(s, start) == '-' || '0' <= At(s, start) <= '9' {
      var number, next := ParseNumber(s, start);
      return Some(number), next;
    } else if At(s, start) == '[' {
      value, end := ParseArray(s, start);
    } else if At(s, start) == '{' {
      value, end := ParseObject(s, start);
    }
  }

  /** `cJSON_Parse`. */
  method ParseText(text: string) returns (root: Option<Json>)
    requires Parse(text) != Undefined
    ensures root == match Parse(text) case Got(v, _) => Some(v) case _ => None
  {
    assert text[0..] == text;
    var start := Skip(text, 0);
    var value, _ := ParseValue(text, start);
    root := value;
  }

  method ParseArray(s: string, start: nat) returns (item: Option<Json>, end: nat)
    requires start < |s| && s[start] == '[' && ArrayAt(s[start..]) != Undefined
    ensures Reached(ArrayAt(s[start..]), s, start, item, end)
    decreases |s| - start, 0
  {
    assert s[start..][0] == s[start] && s[start..][1..] == s[start + 1..];
    var value := Skip(s, start + 1);
    assert At(s, value) == At(s[value..], 0);
    if At(s, value) == ']' {
      assert s[value..][1..] == s[value + 1..];
      return Some(Array([])), value + 1;
    }
    var items, next := ParseItems(s, value);
    item, end := if items.Some? then Some(Array(items.value)) else None, next;
  }

  method ParseItem(s: string, start: nat) returns (item: Option<Json>, end: nat)
    requires start <= |s| && ItemAt(s[start..]) != Undefined
    ensures Reached(ItemAt(s[start..]), s, start, item, end)
    decreases |s| - start, 2
  {
    var value := Skip(s, start);
    item, end := ParseValue(s, value);
  }

  /** A comma leads to the next item, and to its failure if it fails. */
  lemma ItemsStep(all: Parsed<seq<Json>>, before: seq<Json>, t: string)
    requires At(t, 0) == ',' && all == PrependTo(before, MoreItemsAt(t))
    ensures match ItemAt(t[1..])
            case Got(v, rest) => all == PrependTo(before + [v], MoreItemsAt(SkipSpace(rest)))
            case Rejected => all == Rejected
            case Undefined => all == Undefined
  {
    match ItemAt(t[1..]) {
      case Got(v, rest) => PrependTwice(before, [v], MoreItemsAt(SkipSpace(rest)));
      case _ =>
    }
  }

  /** The item after the comma at `comma` joins those before. */
  method ParseNextItem(s: string, comma: nat, before: seq<Json>, ghost all: Parsed<seq<Json>>)
      returns (more: Option<seq<Json>>, end: nat)
    requires comma < |s| && s[comma] == ','
    requires all == PrependTo(before, MoreItemsAt(s[comma..])) && all != Undefined
    ensures if more.Some? then comma < end <= |s| && all == PrependTo(more.value, MoreItemsAt(s[end..]))
            else all == Rejected
    decreases |s| - comma, 2
  {
    assert s[comma..][0] == s[comma] && s[comma..][1..] == s[comma + 1..];
    ItemsStep(all, before, s[comma..]);
    var child, next := ParseItem(s, comma + 1);
    if child.None? {
      return None, 0;
    }
    end := Skip(s, next);
    more := Some(before + [child.value]);
  }

  /** The children of an array, from the first one to the closing bracket. */
  method ParseItems(s: string, start: nat) returns (items: Option<seq<Json>>, end: nat)
    requires start <= |s| && ItemsAt(s[start..]) != Undefined
    ensures Reached(ItemsAt(s[start..]), s, start, items, end)
    decreases |s| - start, 3
  {
    items, end := None, 0;
    ghost var all := ItemsAt(s[start..]);
    var child, next := ParseItem(s, start);
    if child.None? {
      return;
    }
    var children := [child.value];
    var value := Skip(s, next);
    while At(s, value) == ','
      invariant start < value <= |s|
      invariant all == PrependTo(children, MoreItemsAt(s[value..]))
      decreases |s| - value
    {
      var more, after := ParseNextItem(s, value, children, all);
      if more.None? {
        return;
      }
      children, value := more.value, after;
    }
    assert At(s, value) == At(s[value..], 0);
    if At(s, value) == ']' {
      assert s[value..][1..] == s[value + 1..] && children + [] == children;
      return Some(children), value + 1;
    }
  }

  lemma PrependTwice<T>(a: seq<T>, b: seq<T>, r: Parsed<seq<T>>)
    ensures PrependTo(a, PrependTo(b, r)) == PrependTo(a + b, r)
  {
    if r.Got? {
      assert a + (b + r.value) == (a + b) + r.value;
    }
  }

  method ParseMember(s: string, start: nat) returns (member: Option<Member>, end: nat)
    requires start <= |s| && MemberAt(s[start..]) != Undefined
    ensures Reached(MemberAt(s[start..]), s, start, member, end)
    decreases |s| - start, 2
  {
    member, end := None, 0;
    var value := Skip(s, start);
    var key, next := ParseString(s, value);
    if key.None? {
      return;
    }
    value := Skip(s, next);
    member, end := ParseMemberValue(s, value, key.value);
  }

  method ParseMemberValue(s: string, start: nat, key: string) returns (member: Option<Member>, end: nat)
    requires start <= |s| && MemberValueAt(key, s[start..]) != Undefined
    ensures Reached(MemberValueAt(key, s[start..]), s, start, member, end)
    decreases |s| - start, 2
  {
    member, end := None, 0;
    if At(s, start) != ':' {
      return;
    }
    assert s[start..][0] == s[start] && s[start..][1..] == s[start + 1..];
    var value := Skip(s, start + 1);
    var child, last := ParseValue(s, value);
    if child.Some? {
      return Some(Member(key, child.value)), last;
    }
  }

  method ParseObject(s: string, start: nat) returns (item: Option<Json>, end: nat)
    requires start < |s| && s[start] == '{' && ObjectAt(s[start..]) != Undefined
    ensures Reached(ObjectAt(s[start..]), s, start, item, end)
    decreases |s| - start, 0
  {
    assert s[start..][0] == s[start] && s[start..][1..] == s[start + 1..];
    var value := Skip(s, start + 1);
    assert At(s, value) == At(s[value..], 0);
    if At(s, value) == '}' {
      assert s[value..][1..] == s[value + 1..];
      return Some(Object([])), value + 1;
    }
    var members, next := ParseMembers(s, value);
    item, end := if members.Some? then Some(Object(members.value)) else None, next;
  }

  /** A comma leads to the next member, and to its failure if it fails. */
  lemma MembersStep(all: Parsed<seq<Member>>, before: seq<Member>, t: string)
    requires At(t, 0) == ',' && all == PrependTo(before, MoreMembersAt(t))
    ensures match MemberAt(t[1..])
            case Got(m, rest) => all == PrependTo(before + [m], MoreMembersAt(SkipSpace(rest)))
            case Rejected => all == Rejected
            case Undefined => all == Undefined
  {
    match MemberAt(t[1..]) {
      case Got(m, rest) => PrependTwice(before, [m], MoreMembersAt(SkipSpace(rest)));
      case _ =>
    }
  }

  /** The member after the comma at `comma` joins those before. */
  method ParseNextMember(s: string, comma: nat, before: seq<Member>, ghost all: Parsed<seq<Member>>)
      returns (more: Option<seq<Member>>, end: nat)
    requires comma < |s| && s[comma] == ','
    requires all == PrependTo(before, MoreMembersAt(s[comma..])) && all != Undefined
    ensures if more.Some? then comma < end <= |s| && all == PrependTo(more.value, MoreMembersAt(s[end..]))
            else all == Rejected
    decreases |s| - comma, 2
  {
    assert s[comma..][0] == s[comma] && s[comma..][1..] == s[comma + 1..];
    MembersStep(all, before, s[comma..]);
    var child, next := ParseMember(s, comma + 1);
    if child.None? {
      return None, 0;
    }
    end := Skip(s, next);
    more := Some(before + [child.value]);
  }

  /** The members of an object, from the first one to the closing brace. */
  method ParseMembers(s: string, start: nat) returns (members: Option<seq<Member>>, end: nat)
    requires start <= |s| && MembersAt(s[start..]) != Undefined
    ensures Reached(MembersAt(s[start..]), s, start, members, end)
    decreases |s| - start, 3
  {
    members, end := None, 0;
    ghost var all := MembersAt(s[start..]);
    var child, next := ParseMember(s, start);
    if child.None? {
      return;
    }
    var children := [child.value];
    var value := Skip(s, next);
    while At(s, value) == ','
      invariant start < value <= |s|
      invariant all == PrependTo(children, MoreMembersAt(s[value..]))
      decreases |s| - value
    {
      var more, after := ParseNextMember(s, value, children, all);
      if more.None? {
        return;
      }
      children, value := more.value, after;
    }
    assert At(s, value) == At(s[value..], 0);
    if At(s, value) == '}' {
      assert s[value..][1..] == s[value + 1..] && children + [] == children;
      return Some(children), value + 1;
    }
  }
}
