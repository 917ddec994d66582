/** The `Json` handle: building containers and reading them, handles taken as values. */
module JsonAccess {
  import opened JsonValue

  // ---------- building ----------

  /** `Add`: a container gains one last child, named in an object; anything else is unchanged. */
  function Add(json: Json, name: string, item: Json): Json {
    match json
    case Object(members) => Object(members + [Member(name, item)])
    case Array(items) => Array(items + [item])
    case _ => json
  }

  function Bool(b: bool): Json { if b then True else False }

  function Int(n: int): Json { Number(n as real) }

  // ---------- reading ----------

  /** `operator[](name)`: the first child with that name. */
  function Get(json: Option<Json>, name: string): Option<Json> {
    match json
    case Some(Object(members)) => Lookup(members, name)
    case _ => None
  }

  function Lookup(members: seq<Member>, name: string): Option<Json> {
    if |members| == 0 then None
    else if members[0].key == name then Some(members[0].value)
    else Lookup(members[1..], name)
  }

  function Count(json: Option<Json>): nat {
    match json
    case Some(Object(members)) => |members|
    case Some(Array(items)) => |items|
    case _ => 0
  }

  /** `operator[](index)`. */
  function Child(json: Option<Json>, index: nat): Option<Json> {
    match json
    case Some(Object(members)) => if index < |members| then Some(members[index].value) else None
    case Some(Array(items)) => if index < |items| then Some(items[index]) else None
    case _ => None
  }

  function GetString(json: Option<Json>, default: string): string {
    match json
    case Some(Str(t)) => t
    case _ => default
  }

  /** A C++ conversion from `double` to `int`: towards zero. */
  function Truncate(r: real): int {
    if r >= 0.0 then r.Floor else -((-r).Floor)
  }

  function GetInteger(json: Option<Json>, default: int): int {
    match json
    case Some(Number(r)) => Truncate(r)
    case _ => default
  }

  /** The source compares the item's address, not its type, with `False`. */
  function GetBool(json: Option<Json>, default: bool): bool {
    match json
    case Some(True) => true
    case _ => default
  }

  /** A stored boolean is read back unless it is false and the default is true. */
  lemma GetBoolReads(b: bool, default: bool)
    ensures GetBool(Some(Bool(b)), default) == b <==> (b || !default)
  {
  }

  /** `GetStringArray`. */
  method GetStringArray(json: Option<Json>) returns (arr: seq<string>)
    ensures arr == Strings(json)
  {
    arr := [];
    if json.None? || !json.value.Array? {
      return;
    }
    var count, i := Count(json), 0;
    while i < count
      invariant 0 <= i <= count && |arr| == i
      invariant forall k :: 0 <= k < i ==> arr[k] == GetString(Child(json, k), "")
    {
      arr := arr + [GetString(Child(json, i), "")];
      i := i + 1;
    }
  }

  function Strings(json: Option<Json>): (arr: seq<string>) {
    match json
    case Some(Array(items)) => seq(|items|, i requires 0 <= i < |items| => GetString(Some(items[i]), ""))
    case _ => []
  }

  /** `Add(name, vector<wxString>)`: the array that is added. */
  method StringArray(values: seq<string>) returns (a: Json)
    ensures a == StringsJson(values)
  {
    a := Array([]);
    var i := 0;
    while i < |values|
      invariant 0 <= i <= |values| && a.Array? && |a.items| == i
      invariant forall k :: 0 <= k < i ==> a.items[k] == Str(values[k])
    {
      a := Add(a, "", Str(values[i]));
      i := i + 1;
    }
  }

  function StringsJson(values: seq<string>): Json {
    Array(seq(|values|, i requires 0 <= i < |values| => Str(values[i])))
  }

  // ---------- lookups in built objects ----------

  /** Enough of a property name to tell it from its neighbours. */
  function Mark(name: string): int {
    if |name| == 0 then 0 else |name| * 0x11_0000 + name[0] as int
  }

  lemma {:induction false} LookupAt(members: seq<Member>, p: nat)
    requires p < |members| && forall i :: 0 <= i < p ==> Mark(members[i].key) != Mark(members[p].key)
    ensures Lookup(members, members[p].key) == Some(members[p].value)
  {
    if p > 0 {
      assert Mark(members[0].key) != Mark(members[p].key);
      LookupAt(members[1..], p - 1);
    }
  }

  lemma {:induction false} LookupMissing(members: seq<Member>, name: string)
    requires forall i :: 0 <= i < |members| ==> Mark(members[i].key) != Mark(name)
    ensures Lookup(members, name) == None
  {
    if |members| > 0 {
      assert Mark(members[0].key) != Mark(name);
      LookupMissing(members[1..], name);
    }
  }

  lemma {:induction false} ExactItemsAll(items: seq<Json>)
    requires forall k :: 0 <= k < |items| ==> Exact(items[k])
    ensures ExactItems(items)
  {
    if |items| > 0 {
      ExactItemsAll(items[1..]);
    }
  }

  lemma {:induction false} ExactMembersAll(members: seq<Member>)
    requires forall k :: 0 <= k < |members| ==> NulFree(members[k].key) && Exact(members[k].value)
    ensures ExactMembers(members)
  {
    if |members| > 0 {
      ExactMembersAll(members[1..]);
    }
  }
}
