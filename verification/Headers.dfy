/** How header sections are written, and what is read of them. */
module Headers {
  import opened Decimal
  import opened Framing
  import opened JsonValue
  import opened TextUtils
  import opened Transport

  predicate AllBlank(s: string) {
    forall i :: 0 <= i < |s| ==> s[i] == ' ' || 9 <= s[i] as int <= 13
  }

  /** It begins and ends with other characters. */
  predicate IsTrimmed(s: string) {
    |s| > 0 && !AllBlank(s[..1]) && !AllBlank(s[|s| - 1..])
  }

  // ---------- trimming, splitting ----------

  lemma {:induction false} LeftTrimmed(blanks: string, s: string)
    requires AllBlank(blanks) && (s == "" || !AllBlank(s[..1]))
    ensures TrimLeft(blanks + s) == s
  {
    if |blanks| == 0 {
      assert blanks + s == s;
    } else {
      LeftTrimmed(blanks[1..], s);
      assert (blanks + s)[1..] == blanks[1..] + s;
    }
  }

  lemma {:induction false} RightTrimmed(s: string, blanks: string)
    requires AllBlank(blanks) && (s == "" || !AllBlank(s[|s| - 1..]))
    ensures TrimRight(s + blanks) == s
  {
    if |blanks| == 0 {
      assert s + blanks == s;
    } else {
      RightTrimmed(s, blanks[..|blanks| - 1]);
      assert (s + blanks)[..|s + blanks| - 1] == s + blanks[..|blanks| - 1];
    }
  }

  lemma Trimmed(left: string, s: string, right: string)
    requires AllBlank(left) && AllBlank(right) && IsTrimmed(s)
    ensures Trim(left + s + right) == s && Trim(left) == ""
  {
    assert (left + s)[|left + s| - 1..] == s[|s| - 1..];
    RightTrimmed(left + s, right);
    LeftTrimmed(left, s);
    RightTrimmed("", left);
    assert "" + left == left;
  }

  lemma FirstSplit(a: string, c: char, b: string)
    requires c !in a
    ensures BeforeFirst(a + ([c] + b), c) == a && AfterFirst(a + ([c] + b), c) == b
    ensures BeforeFirst(a, c) == a && AfterFirst(a, c) == ""
  {
    IndexOfIs(a, c, [c] + b);
    IndexOfIs(a, c, "");
    assert a + "" == a;
  }

  lemma OneToken(a: string, c: char)
    requires c !in a
    ensures Tokens(a, c) == Head(a)
  {
    FirstSplit(a, c, "");
  }

  /** The pieces between separators, empty ones left out. */
  lemma {:induction false} TokensSplit(a: string, c: char, b: string, t: string)
    requires t == a + ([c] + b)
    ensures Tokens(t, c) == Tokens(a, c) + Tokens(b, c)
    decreases |a|
  {
    if c in a {
      var first, rest, more := CutAt(a, c, b, t);
      TokensSplit(rest, c, b, more);
      TokenThen(first, c, rest, a);
      TokenThen(first, c, more, t);
      Grouped(Head(first), Tokens(rest, c), Tokens(b, c));
    } else {
      OneToken(a, c);
      TokenThen(a, c, b, t);
    }
  }

  lemma CutAt(a: string, c: char, b: string, t: string) returns (first: string, rest: string, more: string)
    requires c in a && t == a + ([c] + b)
    ensures c !in first && a == first + ([c] + rest) && more == rest + ([c] + b) && t == first + ([c] + more)
  {
    first, rest := BeforeFirst(a, c), AfterFirst(a, c);
    more := rest + ([c] + b);
    assert a == first + ([c] + rest);
  }

  function Head(first: string): seq<string> {
    if first == "" then [] else [first]
  }

  lemma Grouped(a: seq<string>, b: seq<string>, c: seq<string>)
    ensures a + (b + c) == (a + b) + c
  {
  }

  lemma TokenThen(first: string, c: char, rest: string, t: string)
    requires c !in first && t == first + ([c] + rest)
    ensures Tokens(t, c) == Head(first) + Tokens(rest, c)
  {
    FirstSplit(first, c, rest);
    IndexOfIs(first, c, [c] + rest);
    if first == "" {
      assert t == [c] + rest && t[1..] == rest;
    }
  }

  // ---------- header lines ----------

  /** A header line, with blanks around the name and around the value. */
  lemma HeaderReads(before: string, name: string, gap: string, between: string, value: string, after: string)
    requires AllBlank(before) && AllBlank(gap) && AllBlank(between) && AllBlank(after)
    requires IsTrimmed(name) && ':' !in name && IsTrimmed(value)
    ensures var line := before + (name + gap + (":" + (between + value))) + after;
            HeaderName(line) == name && HeaderValue(line) == value
  {
    var core := name + gap + (":" + (between + value));
    assert core[..1] == name[..1] && core[|core| - 1..] == value[|value| - 1..];
    Trimmed(before, core, after);
    FirstSplit(name + gap, ':', between + value);
    Trimmed("", name, gap);
    Trimmed(between, value, "");
    assert "" + name + gap == name + gap && between + value + "" == between + value;
  }

  /** The number a length is read as: blanks, a sign, digits, and anything behind them. */
  lemma LengthReads(blanks: string, sign: string, digits: string, rest: string)
    requires AllBlank(blanks) && (sign == "" || sign == "+" || sign == "-")
    requires AllDigits(digits) && |digits| > 0 && (rest == "" || !IsDigit(rest[0]))
    ensures var n: int := Accumulate(digits, 0);
            Atol(blanks + (sign + (digits + rest))) == if sign == "-" then -n else n
  {
    var u := digits + rest;
    var t := sign + u;
    RunIs(digits, rest);
    assert u[..|digits|] == digits && u[0] == digits[0];
    assert sign == "" ==> t == u;
    assert sign != "" ==> t[0] == sign[0] && t[1..] == u;
    assert !AllBlank(t[..1]) by {
      assert t[..1][0] == t[0];
    }
    LeftTrimmed(blanks, t);
  }

  predicate EmptyLineAt(s: string, j: nat) {
    j + 4 <= |s| && s[j] == '\r' && s[j + 1] == '\n' && s[j + 2] == '\r' && s[j + 3] == '\n'
  }

  /** The section ends at the first empty line. */
  lemma {:induction false} FirstEmptyLine(s: string)
    ensures match FindTerminator(s)
            case Some(w) => EmptyLineAt(s, w) && forall j :: 0 <= j < w ==> !EmptyLineAt(s, j)
            case None => forall j :: 0 <= j ==> !EmptyLineAt(s, j)
  {
    if |s| >= 4 && !EmptyLineAt(s, 0) {
      FirstEmptyLine(s[1..]);
      assert forall j :: 0 < j ==> (EmptyLineAt(s, j) <==> EmptyLineAt(s[1..], j - 1));
    }
  }

  /** What is sent, and nothing else. */
  lemma Sends(payload: string)
    ensures Transport.Text(Plain(payload)) == "Content-Length: " + Digits(|payload|) + "\r\n\r\n" + payload
  {
    assert HeaderLines(Plain(payload)) == [LengthLine(payload)];
    assert Section([LengthLine(payload)]) == LengthLine(payload);
  }
}
