/** JSON trees as the codec sees them, and the C-string conventions its functions share. */
module JsonValue {

  datatype Option<+T> = None | Some(value: T)

  /** A `cJsonDap` item: its type and the payload that type uses. Containers keep
      order and duplicate keys, as the `next` chain of the source does. */
  datatype Json =
    | Null
    | False
    | True
    | Number(value: real)
    | Str(text: string)
    | Array(items: seq<Json>)
    | Object(members: seq<Member>)

  datatype Member = Member(key: string, value: Json)

  /** The range of the source's `int`. */
  const INT_MIN: int := -0x8000_0000
  const INT_MAX: int := 0x7FFF_FFFF

  predicate IsInt(r: real) {
    r == r.Floor as real && INT_MIN <= r.Floor <= INT_MAX
  }

  predicate NulFree(s: string) {
    '\0' !in s
  }

  /** The trees that are printed exactly: numbers are 32-bit integers, and every
      string is a C string. */
  predicate Exact(v: Json)
    decreases v, 1
  {
    match v
    case Number(r) => IsInt(r)
    case Str(t) => NulFree(t)
    case Array(items) => ExactItems(items)
    case Object(members) => ExactMembers(members)
    case _ => true
  }

  predicate ExactItems(items: seq<Json>)
    decreases items, 0
  {
    |items| == 0 || (Exact(items[0]) && ExactItems(items[1..]))
  }

  predicate ExactMembers(members: seq<Member>)
    decreases members, 0
  {
    |members| == 0
    || (NulFree(members[0].key) && Exact(members[0].value) && ExactMembers(members[1..]))
  }

  lemma {:induction false} ExactItemsAt(items: seq<Json>, k: nat)
    requires ExactItems(items) && k < |items|
    ensures Exact(items[k]) && ExactItems(items[k..])
  {
    if k == 0 {
      assert items[0..] == items;
    } else {
      ExactItemsAt(items[1..], k - 1);
      assert items[1..][k - 1..] == items[k..];
    }
  }

  lemma {:induction false} ExactMembersAt(members: seq<Member>, k: nat)
    requires ExactMembers(members) && k < |members|
    ensures NulFree(members[k].key) && Exact(members[k].value) && ExactMembers(members[k..])
  {
    if k == 0 {
      assert members[0..] == members;
    } else {
      ExactMembersAt(members[1..], k - 1);
      assert members[1..][k - 1..] == members[k..];
    }
  }

  /** Reading through a `const char *`: index `|s|` is the terminator, and no
      index beyond it may be read. */
  function At(s: string, i: nat): char
    requires i <= |s|
  {
    if i < |s| then s[i] else '\0'
  }

  predicate StartsWith(s: string, prefix: string) {
    |prefix| <= |s| && s[..|prefix|] == prefix
  }

  /** What parsing a text yields: a value and the text after it, a null return, or an
      input on which the source's behaviour is undefined (a malformed escape). */
  datatype Parsed<+T> = Got(value: T, rest: string) | Rejected | Undefined

  /** A parser called at index `start` of `s` returned `value` and the index `end`. */
  predicate Reached<T(==)>(spec: Parsed<T>, s: string, start: nat, value: Option<T>, end: nat) {
    match spec
    case Got(v, rest) => value == Some(v) && start < end <= |s| && s[end..] == rest
    case Rejected => value.None?
    case Undefined => false
  }
}
