/** Splitting a command line into arguments, and quoting arguments for it. */
module CommandLine {
  import opened TextUtils

  datatype Mode = Normal | DoubleQuote | SingleQuote | Escape | Backtick

  /** The scanner: its mode, the mode before it, the token in progress, the tokens done. */
  datatype Scanner = Scanner(mode: Mode, before: Mode, token: string, tokens: seq<string>)

  const START := Scanner(Normal, Normal, "", [])

  function QuoteOf(mode: Mode): char {
    match mode
    case DoubleQuote => '"'
    case Backtick => '`'
    case _ => '\''
  }

  function ModeOf(quote: char): Mode {
    if quote == '"' then DoubleQuote else if quote == '`' then Backtick else SingleQuote
  }

  predicate IsQuote(c: char) {
    c == '"' || c == '\'' || c == '`'
  }

  function Push(q: Scanner): Scanner {
    if q.token == "" then q else q.(token := "", tokens := q.tokens + [q.token])
  }

  function Step(q: Scanner, c: char): Scanner {
    match q.mode
    case Normal =>
      if c == ' ' || c == '\t' then Push(q)
      else if IsQuote(c) then Scanner(ModeOf(c), Normal, q.token + [c], q.tokens)
      else q.(token := q.token + [c])
    case Escape =>
      Scanner(q.before, Normal, q.token + (if c == QuoteOf(q.before) then [c] else ['\\', c]), q.tokens)
    case _ =>
      if c == '\\' then q.(mode := Escape, before := q.mode)
      else if c == QuoteOf(q.mode) then Scanner(q.before, Normal, q.token + [c], q.tokens)
      else q.(token := q.token + [c])
  }

  function Scan(q: Scanner, s: string): Scanner {
    if |s| == 0 then q else Step(Scan(q, s[..|s| - 1]), s[|s| - 1])
  }

  /** An escape is always inside a quotation, and only then is there a mode to go back to. */
  predicate Sound(q: Scanner) {
    if q.mode == Escape then q.before in {DoubleQuote, SingleQuote, Backtick} else q.before == Normal
  }

  lemma {:induction false} ScanSound(q: Scanner, s: string)
    requires Sound(q)
    ensures Sound(Scan(q, s))
  {
    if |s| > 0 {
      ScanSound(q, s[..|s| - 1]);
    }
  }

  /** A copy made by `strdup`: the text before the first NUL. */
  function Copied(s: string): string {
    BeforeFirst(s, '\0')
  }

  /** A token without the double quotes around it. */
  function Stripped(s: string): string {
    if |s| > 1 && s[0] == '"' && s[|s| - 1] == '"' then s[1..|s| - 1] else s
  }

  function StripAll(tokens: seq<string>): seq<string> {
    seq(|tokens|, i requires 0 <= i < |tokens| => Stripped(Copied(tokens[i])))
  }

  /** The arguments of a command line. */
  function Arguments(line: string): seq<string> {
    StripAll(Push(Scan(START, line)).tokens)
  }

  // ---------- the loops ----------

  method SplitTokens(line: string) returns (tokens: seq<string>)
    ensures tokens == Push(Scan(START, line)).tokens
  {
    var mode, before, token := Normal, Normal, "";
    tokens := [];
    var i := 0;
    while i < |line|
      invariant 0 <= i <= |line|
      invariant Scanner(mode, before, token, tokens) == Scan(START, line[..i])
      invariant Sound(Scanner(mode, before, token, tokens))
    {
      var c := line[i];
      assert line[..i + 1][..i] == line[..i];
      if mode == Normal {
        if c == ' ' || c == '\t' {
          if token != "" {
            tokens, token := tokens + [token], "";
          }
        } else {
          if c == '\'' {
            before, mode := mode, SingleQuote;
          } else if c == '"' {
            before, mode := mode, DoubleQuote;
          } else if c == '`' {
            before, mode := mode, Backtick;
          }
          token := token + [c];
        }
      } else if mode == Escape {
        if before == DoubleQuote {
          token := token + if c == '"' then "\"" else ['\\', c];
        } else if before == Backtick {
          token := token + if c == '`' then "`" else ['\\', c];
        } else {
          token := token + if c == '\'' then "'" else ['\\', c];
        }
        mode, before := before, Normal;
      } else if c == '\\' {
        before, mode := mode, Escape;
      } else {
        token := token + [c];
        if (mode == DoubleQuote && c == '"') || (mode == SingleQuote && c == '\'') || (mode == Backtick && c == '`') {
          mode, before := before, Normal;
        }
      }
      i := i + 1;
    }
    assert line[..i] == line;
    if token != "" {
      tokens := tokens + [token];
    }
  }

  method BuildArgv(line: string) returns (arguments: seq<string>)
    ensures arguments == Arguments(line)
  {
    var tokens := SplitTokens(line);
    arguments := [];
    for i := 0 to |tokens|
      invariant |arguments| == i && forall j :: 0 <= j < i ==> arguments[j] == Stripped(Copied(tokens[j]))
    {
      arguments := arguments + [Stripped(Copied(tokens[i]))];
    }
  }

  // ---------- quoting ----------

  function WrapWithQuotes(s: string): string {
    if ' ' in s then "\"" + s + "\"" else s
  }

  /** The arguments, each wrapped, with single spaces between. */
  function Line(arguments: seq<string>): string {
    if |arguments| == 0 then ""
    else if |arguments| == 1 then WrapWithQuotes(arguments[0])
    else WrapWithQuotes(arguments[0]) + " " + Line(arguments[1..])
  }

  predicate IsArgument(a: string) {
    a != "" && forall i :: 0 <= i < |a| ==> a[i] != '\t' && a[i] != '\0' && !IsQuote(a[i])
  }

  /** Ends in an odd number of backslashes. */
  predicate OddTail(a: string) {
    |a| > 0 && a[|a| - 1] == '\\' && !OddTail(a[..|a| - 1])
  }

  /** Its closing quote would be read as escaped. */
  predicate Swallows(a: string) {
    ' ' in a && OddTail(a)
  }

  // ---------- scanning what was quoted ----------

  lemma {:induction false} ScanAppend(q: Scanner, a: string, b: string)
    ensures Scan(q, a + b) == Scan(Scan(q, a), b)
  {
    if |b| == 0 {
      assert a + b == a;
    } else {
      ScanAppend(q, a, b[..|b| - 1]);
      assert (a + b)[..|a + b| - 1] == a + b[..|b| - 1];
    }
  }

  lemma ScanOne(q: Scanner, c: char)
    ensures Scan(q, [c]) == Step(q, c)
  {
    assert [c][..0] == "";
    assert Scan(q, "") == q;
  }

  lemma {:induction false} ScanPlain(q: Scanner, a: string)
    requires q.mode == Normal && forall i :: 0 <= i < |a| ==> a[i] != ' ' && a[i] != '\t' && !IsQuote(a[i])
    ensures Scan(q, a) == q.(token := q.token + a)
  {
    if |a| > 0 {
      ScanPlain(q, a[..|a| - 1]);
      assert a == a[..|a| - 1] + [a[|a| - 1]];
    } else {
      assert q.token + a == q.token;
    }
  }

  /** Inside any quotation, text without its quote is kept, escapes and all; after an odd
      number of backslashes the last one is still open. */
  lemma {:induction false} ScanQuoted(q: Scanner, a: string)
    requires q.mode in {DoubleQuote, SingleQuote, Backtick} && q.before == Normal && QuoteOf(q.mode) !in a
    ensures Scan(q, a)
         == if OddTail(a) then Scanner(Escape, q.mode, q.token + a[..|a| - 1], q.tokens)
            else q.(token := q.token + a)
  {
    if |a| > 0 {
      var front := a[..|a| - 1];
      ScanQuoted(q, front);
      assert a == front + [a[|a| - 1]];
      if OddTail(front) {
        assert front == front[..|front| - 1] + ['\\'];
        assert a == front[..|front| - 1] + ['\\', a[|a| - 1]];
      }
    } else {
      assert q.token + a == q.token;
    }
  }

  /** A quoted text, from its opening quote `c` to the one meant to close it: it goes on with
      the token in progress. */
  lemma ScanBetweenQuotes(q: Scanner, c: char, a: string)
    requires q.mode == Normal && q.before == Normal && IsQuote(c) && c !in a
    ensures Scan(q, [c] + a + [c])
         == if OddTail(a) then Scanner(ModeOf(c), Normal, q.token + ([c] + a[..|a| - 1] + [c]), q.tokens)
            else q.(token := q.token + ([c] + a + [c]))
  {
    var inner := Scanner(ModeOf(c), Normal, q.token + [c], q.tokens);
    ScanOne(q, c);
    ScanAppend(q, [c], a);
    ScanAppend(q, [c] + a, [c]);
    ScanQuoted(inner, a);
    ScanOne(Scan(inner, a), c);
    Reassociate(q.token, [c], if OddTail(a) then a[..|a| - 1] else a);
  }

  lemma Reassociate(a: string, b: string, c: string)
    ensures ((a + b) + c) + b == a + (b + c + b)
  {
  }

  /** A wrapped argument is one token, unless it swallows its closing quote. */
  lemma ScanWrapped(q: Scanner, a: string)
    requires IsArgument(a) && q.mode == Normal && q.before == Normal && q.token == ""
    ensures Scan(q, WrapWithQuotes(a))
         == if Swallows(a) then Scanner(DoubleQuote, Normal, "\"" + a[..|a| - 1] + "\"", q.tokens)
            else q.(token := WrapWithQuotes(a))
  {
    if ' ' in a {
      ScanBetweenQuotes(q, '"', a);
      assert q.token + ("\"" + a + "\"") == "\"" + a + "\"";
      assert q.token + ("\"" + a[..|a| - 1] + "\"") == "\"" + a[..|a| - 1] + "\"";
    } else {
      ScanPlain(q, a);
    }
  }

  function Wrapped(arguments: seq<string>): seq<string> {
    seq(|arguments|, i requires 0 <= i < |arguments| => WrapWithQuotes(arguments[i]))
  }

  /** The scanner when the argument has become a token. */
  function Past(q: Scanner, a: string): Scanner {
    q.(tokens := q.tokens + [WrapWithQuotes(a)])
  }

  lemma {:induction false} ScanLine(q: Scanner, arguments: seq<string>)
    requires q.mode == Normal && q.before == Normal && q.token == ""
    requires forall i :: 0 <= i < |arguments| ==> IsArgument(arguments[i]) && !Swallows(arguments[i])
    ensures Push(Scan(q, Line(arguments))).tokens == q.tokens + Wrapped(arguments)
    decreases |arguments|
  {
    if |arguments| > 0 {
      WrappedFirst(arguments);
      if |arguments| == 1 {
        ScanLast(q, arguments[0]);
        assert arguments == [arguments[0]];
      } else {
        LineStep(q, arguments);
        ScanLine(Past(q, arguments[0]), arguments[1..]);
      }
    }
  }

  lemma WrappedFirst(arguments: seq<string>)
    requires |arguments| > 0
    ensures Wrapped(arguments) == [WrapWithQuotes(arguments[0])] + Wrapped(arguments[1..])
  {
  }

  lemma ScanLast(q: Scanner, a: string)
    requires q.mode == Normal && q.before == Normal && q.token == "" && IsArgument(a) && !Swallows(a)
    ensures Push(Scan(q, Line([a]))).tokens == q.tokens + [WrapWithQuotes(a)]
  {
    ScanWrapped(q, a);
  }

  lemma NextArgument(q: Scanner, w: string, rest: string)
    requires q.mode == Normal && Scan(q, w) == q.(token := w) && w != ""
    ensures Scan(q, w + " " + rest) == Scan(q.(token := "", tokens := q.tokens + [w]), rest)
  {
    ScanAppend(q, w + " ", rest);
    ScanAppend(q, w, " ");
    ScanOne(Scan(q, w), ' ');
  }

  /** The first argument scanned, where more follow. */
  lemma LineStep(q: Scanner, arguments: seq<string>)
    requires q.mode == Normal && q.before == Normal && q.token == ""
    requires |arguments| > 1 && IsArgument(arguments[0]) && !Swallows(arguments[0])
    ensures Scan(q, Line(arguments)) == Scan(Past(q, arguments[0]), Line(arguments[1..]))
  {
    ScanWrapped(q, arguments[0]);
    NextArgument(q, WrapWithQuotes(arguments[0]), Line(arguments[1..]));
    assert q.(token := "") == q;
  }

  lemma StripWrapped(a: string)
    requires IsArgument(a)
    ensures Stripped(Copied(WrapWithQuotes(a))) == a
  {
    IndexOfIs(WrapWithQuotes(a), '\0', "");
    assert WrapWithQuotes(a) + "" == WrapWithQuotes(a);
  }

  // ---------- a swallowed quote ----------

  /** The token in progress ends up as the start of the next token. */
  lemma TokenGrows(q: Scanner, s: string)
    requires q.token != ""
    ensures var k, tokens := |q.tokens|, Push(Scan(q, s)).tokens;
            |tokens| > k && tokens[..k] == q.tokens && q.token <= tokens[k]
  {
    ScanGrows(q, s);
  }

  lemma {:induction false} ScanGrows(q: Scanner, s: string)
    requires q.token != ""
    ensures var k, r := |q.tokens|, Scan(q, s);
            if |r.tokens| > k then r.tokens[..k] == q.tokens && q.token <= r.tokens[k]
            else r.tokens == q.tokens && q.token <= r.token
  {
    if |s| > 0 {
      ScanGrows(q, s[..|s| - 1]);
    }
  }

  /** With a swallowed quote in the first argument, the first token is another one. */
  lemma SwallowedToken(q: Scanner, arguments: seq<string>)
    requires q.mode == Normal && q.before == Normal && q.token == ""
    requires |arguments| > 0 && IsArgument(arguments[0]) && Swallows(arguments[0])
    ensures var k, tokens := |q.tokens|, Push(Scan(q, Line(arguments))).tokens;
            && |tokens| > k && tokens[..k] == q.tokens
            && (if |arguments| == 1 then tokens[k] == "\"" + arguments[0][..|arguments[0]| - 1] + "\""
                else "\"" + arguments[0][..|arguments[0]| - 1] + "\"" + " " <= tokens[k])
  {
    var a := arguments[0];
    var token := "\"" + a[..|a| - 1] + "\"";
    ScanWrapped(q, a);
    if |arguments| > 1 {
      var w, rest := WrapWithQuotes(a), Line(arguments[1..]);
      assert w + " " + rest == w + (" " + rest);
      ScanAppend(q, w, " " + rest);
      ScanAppend(Scan(q, w), " ", rest);
      ScanOne(Scan(q, w), ' ');
      TokenGrows(Scan(Scan(q, w), " "), rest);
    }
  }

  lemma SwallowedDiffers(a: string, token: string, last: bool)
    requires IsArgument(a) && Swallows(a)
    requires var start := "\"" + a[..|a| - 1] + "\""; if last then token == start else start + " " <= token
    ensures Stripped(Copied(token)) != a
  {
    var start := "\"" + a[..|a| - 1] + "\"";
    var n := |start|;
    assert forall i :: 0 <= i < n ==> token[i] == start[i];
    assert forall i :: 0 <= i < |a| - 1 ==> start[i + 1] == a[i];
    if last {
      IndexOfIs(token, '\0', "");
      assert token + "" == token;
      assert |Stripped(Copied(token))| == |a| - 1;
    } else {
      assert token[n] == (start + " ")[n] == ' ';
      assert forall i :: 0 <= i <= n ==> token[i] == (start + " ")[i] && token[i] != '\0';
      CopyKeeps(token, n + 1);
      var copy := Copied(token);
      assert copy[n - 1] == token[n - 1] == '"';
      assert '"' in Stripped(copy) && '"' !in a;
    }
  }

  lemma CopyKeeps(s: string, n: nat)
    requires n <= |s| && forall i :: 0 <= i < n ==> s[i] != '\0'
    ensures |Copied(s)| >= n && Copied(s) <= s
  {
    var k := IndexOf(s, '\0');
    assert k < |s| ==> s[k] == '\0';
  }

  /** Token `n + i` is there, and is not argument `i`. */
  predicate Wrong(tokens: seq<string>, n: nat, arguments: seq<string>, i: nat) {
    i < |arguments| && n + i < |tokens| && Stripped(Copied(tokens[n + i])) != arguments[i]
  }

  lemma WrongLater(tokens: seq<string>, n: nat, arguments: seq<string>, i: nat)
    requires |arguments| > 0 && Wrong(tokens, n + 1, arguments[1..], i)
    ensures Wrong(tokens, n, arguments, i + 1)
  {
  }

  lemma SwallowedFirst(q: Scanner, arguments: seq<string>)
    requires q.mode == Normal && q.before == Normal && q.token == ""
    requires |arguments| > 0 && IsArgument(arguments[0]) && Swallows(arguments[0])
    ensures Wrong(Push(Scan(q, Line(arguments))).tokens, |q.tokens|, arguments, 0)
  {
    SwallowedToken(q, arguments);
    SwallowedDiffers(arguments[0], Push(Scan(q, Line(arguments))).tokens[|q.tokens|], |arguments| == 1);
  }

  lemma WrongBehind(q: Scanner, arguments: seq<string>, i: nat)
    requires q.mode == Normal && q.before == Normal && q.token == ""
    requires |arguments| > 1 && IsArgument(arguments[0]) && !Swallows(arguments[0])
    requires Wrong(Push(Scan(Past(q, arguments[0]), Line(arguments[1..]))).tokens, |q.tokens| + 1, arguments[1..], i)
    ensures Wrong(Push(Scan(q, Line(arguments))).tokens, |q.tokens|, arguments, i + 1)
  {
    LineStep(q, arguments);
    WrongLater(Push(Scan(q, Line(arguments))).tokens, |q.tokens|, arguments, i);
  }

  /** If an argument swallows its quote, the token of the first such comes out wrong. */
  lemma {:induction false} SwallowedBreaks(q: Scanner, arguments: seq<string>) returns (i: nat)
    requires q.mode == Normal && q.before == Normal && q.token == ""
    requires forall j :: 0 <= j < |arguments| ==> IsArgument(arguments[j])
    requires exists j :: 0 <= j < |arguments| && Swallows(arguments[j])
    ensures Wrong(Push(Scan(q, Line(arguments))).tokens, |q.tokens|, arguments, i)
    decreases |arguments|
  {
    if Swallows(arguments[0]) {
      SwallowedFirst(q, arguments);
      i := 0;
    } else {
      var j :| 0 <= j < |arguments| && Swallows(arguments[j]);
      assert arguments[1..][j - 1] == arguments[j];
      i := SwallowedBreaks(Past(q, arguments[0]), arguments[1..]);
      WrongBehind(q, arguments, i);
      i := i + 1;
    }
  }

  /** Tokenising undoes quoting if and only if no argument with a space ends in an odd
      number of backslashes. */
  lemma TokenisingUndoesQuoting(arguments: seq<string>)
    requires forall i :: 0 <= i < |arguments| ==> IsArgument(arguments[i])
    ensures Arguments(Line(arguments)) == arguments
            <==> forall i :: 0 <= i < |arguments| ==> !Swallows(arguments[i])
  {
    if forall i :: 0 <= i < |arguments| ==> !Swallows(arguments[i]) {
      ScanLine(START, arguments);
      assert [] + Wrapped(arguments) == Wrapped(arguments);
      forall i | 0 <= i < |arguments| ensures Stripped(Copied(Wrapped(arguments)[i])) == arguments[i] {
        StripWrapped(arguments[i]);
      }
    } else {
      var i := SwallowedBreaks(START, arguments);
      assert Arguments(Line(arguments))[i] != arguments[i];
    }
  }

  /** An argument that loses its backslash. */
  lemma BackslashSwallowed()
    ensures Arguments(Line(["a \\"])) == ["a "]
  {
    var a, token := "a \\", "\"a \"";
    assert OddTail(a) && !OddTail(a[..|a| - 1]) && a[1] == ' ' && Swallows(a);
    assert a[..|a| - 1] == "a ";
    ScanWrapped(START, a);
    assert Scan(START, Line([a])) == Scanner(DoubleQuote, Normal, token, []);
    assert [] + [token] == [token];
    IndexOfIs(token, '\0', "");
    assert token + "" == token && token[1..|token| - 1] == "a ";
  }
}
