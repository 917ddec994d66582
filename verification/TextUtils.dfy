/** The string helpers the protocol and path code share. */
module TextUtils {

  /** Where `c` first occurs, or the length if it does not. */
  function IndexOf(s: string, c: char): (k: nat)
    ensures k <= |s| && c !in s[..k] && (k < |s| ==> s[k] == c)
  {
    if |s| == 0 || s[0] == c then 0
    else
      var k := IndexOf(s[1..], c);
      assert s[..1 + k] == [s[0]] + s[1..][..k];
      1 + k
  }

  function BeforeFirst(s: string, c: char): string {
    s[..IndexOf(s, c)]
  }

  function AfterFirst(s: string, c: char): string {
    if IndexOf(s, c) < |s| then s[IndexOf(s, c) + 1..] else ""
  }

  lemma IndexOfIs(a: string, c: char, rest: string)
    requires c !in a && (|rest| == 0 || rest[0] == c)
    ensures IndexOf(a + rest, c) == |a|
  {
    var s := a + rest;
    var k := IndexOf(s, c);
    assert forall j :: 0 <= j < |a| ==> s[j] == a[j];
    assert forall j :: 0 <= j < k ==> s[j] == s[..k][j];
    assert |rest| > 0 ==> s[|a|] == c;
  }

  predicate IsSpace(c: char) {
    c == ' ' || 9 <= c as int <= 13
  }

  function TrimRight(s: string): string {
    if |s| > 0 && IsSpace(s[|s| - 1]) then TrimRight(s[..|s| - 1]) else s
  }

  function TrimLeft(s: string): string {
    if |s| > 0 && IsSpace(s[0]) then TrimLeft(s[1..]) else s
  }

  function Trim(s: string): string {
    TrimLeft(TrimRight(s))
  }

  /** The non-empty pieces between separators. */
  function Tokens(s: string, c: char): seq<string>
    decreases |s|
  {
    if |s| == 0 then []
    else if IndexOf(s, c) == 0 then Tokens(s[1..], c)
    else [BeforeFirst(s, c)] + Tokens(AfterFirst(s, c), c)
  }
}
