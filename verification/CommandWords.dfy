/** What a command line is made of: gaps, and words of bare and quoted text in any order. */
module CommandWords {
  import opened CommandLine
  import opened TextUtils

  /** One step inside a quotation: a character kept, or one behind a backslash. */
  datatype Inner = Kept(c: char) | Escaped(c: char)

  datatype Bit = Bare(text: string) | Quoted(quote: char, inside: seq<Inner>)

  /** A word and the gap before it. */
  datatype Item = Item(gap: string, word: seq<Bit>)

  predicate IsGap(s: string) {
    forall i :: 0 <= i < |s| ==> s[i] == ' ' || s[i] == '\t'
  }

  predicate InnerOk(quote: char, inside: seq<Inner>) {
    forall i :: 0 <= i < |inside| && inside[i].Kept? ==> inside[i].c != quote && inside[i].c != '\\'
  }

  predicate BitOk(b: Bit) {
    match b
    case Bare(text) =>
      forall i :: 0 <= i < |text| ==>
        text[i] != ' ' && text[i] != '\t' && text[i] != '"' && text[i] != '\'' && text[i] != '`'
    case Quoted(quote, inside) => (quote == '"' || quote == '\'' || quote == '`') && InnerOk(quote, inside)
  }

  predicate WordOk(word: seq<Bit>) {
    forall i :: 0 <= i < |word| ==> BitOk(word[i])
  }

  /** A word that is there, and a gap before it unless it is the first. */
  predicate ItemOk(item: Item, first: bool) {
    IsGap(item.gap) && WordOk(item.word) && WordToken(item.word) != "" && (first || item.gap != "")
  }

  predicate ItemsOk(items: seq<Item>) {
    |items| == 0 || (ItemsOk(items[..|items| - 1]) && ItemOk(items[|items| - 1], |items| == 1))
  }

  // ---------- how it is written ----------

  function SpelledInner(inside: seq<Inner>): string {
    if |inside| == 0 then ""
    else
      var last := inside[|inside| - 1];
      SpelledInner(inside[..|inside| - 1]) + if last.Kept? then [last.c] else ['\\', last.c]
  }

  function SpelledBit(b: Bit): string {
    match b
    case Bare(text) => text
    case Quoted(quote, inside) => [quote] + SpelledInner(inside) + [quote]
  }

  function SpelledWord(word: seq<Bit>): string {
    if |word| == 0 then "" else SpelledWord(word[..|word| - 1]) + SpelledBit(word[|word| - 1])
  }

  function SpelledItems(items: seq<Item>): string {
    if |items| == 0 then ""
    else SpelledItems(items[..|items| - 1]) + items[|items| - 1].gap + SpelledWord(items[|items| - 1].word)
  }

  // ---------- what it stands for ----------

  /** A backslash goes only before the quotation's own quote. */
  function InnerToken(quote: char, inside: seq<Inner>): string {
    if |inside| == 0 then ""
    else
      var last := inside[|inside| - 1];
      InnerToken(quote, inside[..|inside| - 1])
      + if last.Kept? || last.c == quote then [last.c] else ['\\', last.c]
  }

  function BitToken(b: Bit): string {
    match b
    case Bare(text) => text
    case Quoted(quote, inside) => [quote] + InnerToken(quote, inside) + [quote]
  }

  function WordToken(word: seq<Bit>): string {
    if |word| == 0 then "" else WordToken(word[..|word| - 1]) + BitToken(word[|word| - 1])
  }

  function ItemTokens(items: seq<Item>): (tokens: seq<string>)
    ensures |tokens| == |items|
  {
    if |items| == 0 then [] else ItemTokens(items[..|items| - 1]) + [WordToken(items[|items| - 1].word)]
  }

  // ---------- the scanner on it ----------

  lemma {:induction false} GapScans(q: Scanner, gap: string)
    requires q.mode == Normal && IsGap(gap)
    ensures Scan(q, gap) == if gap == "" then q else Push(q)
  {
    if |gap| > 0 {
      GapScans(q, gap[..|gap| - 1]);
    }
  }

  lemma {:induction false} InnerScans(q: Scanner, quote: char, inside: seq<Inner>)
    requires q.mode in {DoubleQuote, SingleQuote, Backtick} && q.before == Normal && QuoteOf(q.mode) == quote
    requires InnerOk(quote, inside)
    ensures Scan(q, SpelledInner(inside)) == q.(token := q.token + InnerToken(quote, inside))
  {
    if |inside| > 0 {
      var front, last := inside[..|inside| - 1], inside[|inside| - 1];
      InnerScans(q, quote, front);
      var r := Scan(q, SpelledInner(front));
      assert InnerToken(quote, inside) == InnerToken(quote, front) + InnerToken(quote, [last]) by {
        assert [last][..0] == [];
      }
      if last.Kept? {
        ScanAppend(q, SpelledInner(front), [last.c]);
        ScanOne(r, last.c);
      } else {
        ScanAppend(q, SpelledInner(front), ['\\', last.c]);
        ScanEscape(r, last.c);
      }
    } else {
      assert q.token + "" == q.token;
    }
  }

  lemma ScanEscape(q: Scanner, c: char)
    requires q.mode in {DoubleQuote, SingleQuote, Backtick} && q.before == Normal
    ensures Scan(q, ['\\', c]) == q.(token := q.token + if c == QuoteOf(q.mode) then [c] else ['\\', c])
  {
    assert ['\\', c] == ['\\'] + [c];
    ScanAppend(q, ['\\'], [c]);
    ScanOne(q, '\\');
    ScanOne(Step(q, '\\'), c);
  }

  /** Quoted and bare text go on with the token in progress, and end none. */
  lemma BitScans(q: Scanner, b: Bit)
    requires q.mode == Normal && q.before == Normal && BitOk(b)
    ensures Scan(q, SpelledBit(b)) == q.(token := q.token + BitToken(b))
  {
    match b {
      case Bare(text) => ScanPlain(q, text);
      case Quoted(quote, inside) =>
        var entered := Scanner(ModeOf(quote), Normal, q.token + [quote], q.tokens);
        ScanAppend(q, [quote] + SpelledInner(inside), [quote]);
        ScanAppend(q, [quote], SpelledInner(inside));
        ScanOne(q, quote);
        InnerScans(entered, quote, inside);
        ScanOne(Scan(entered, SpelledInner(inside)), quote);
        Reassociate(q.token, [quote], InnerToken(quote, inside));
    }
  }

  lemma {:induction false} WordScans(q: Scanner, word: seq<Bit>)
    requires q.mode == Normal && q.before == Normal && WordOk(word)
    ensures Scan(q, SpelledWord(word)) == q.(token := q.token + WordToken(word))
  {
    if |word| > 0 {
      var front, last := word[..|word| - 1], word[|word| - 1];
      WordScans(q, front);
      BitScans(q.(token := q.token + WordToken(front)), last);
      Extends(q, SpelledWord(front), WordToken(front), SpelledBit(last), BitToken(last));
    } else {
      assert q.token + "" == q.token;
    }
  }

  lemma Extends(q: Scanner, a: string, aToken: string, b: string, bToken: string)
    requires Scan(q, a) == q.(token := q.token + aToken)
    requires Scan(q.(token := q.token + aToken), b) == q.(token := q.token + aToken + bToken)
    ensures Scan(q, a + b) == q.(token := q.token + (aToken + bToken))
  {
    ScanAppend(q, a, b);
    assert q.token + aToken + bToken == q.token + (aToken + bToken);
  }

  lemma ItemScans(q: Scanner, item: Item)
    requires q.mode == Normal && q.before == Normal && IsGap(item.gap) && WordOk(item.word)
    requires q.token == "" || item.gap != ""
    ensures Scan(q, item.gap + SpelledWord(item.word)) == Push(q).(token := WordToken(item.word))
  {
    ScanAppend(q, item.gap, SpelledWord(item.word));
    GapScans(q, item.gap);
    WordScans(Push(q), item.word);
    assert "" + WordToken(item.word) == WordToken(item.word);
  }

  /** The scanner with the last token in progress. */
  function Reached(q: Scanner, tokens: seq<string>): Scanner {
    if |tokens| == 0 then q
    else Scanner(Normal, Normal, tokens[|tokens| - 1], q.tokens + tokens[..|tokens| - 1])
  }

  lemma ReachedNext(q: Scanner, tokens: seq<string>, t: string)
    requires q.mode == Normal && q.before == Normal && q.token == ""
    requires |tokens| > 0 ==> tokens[|tokens| - 1] != ""
    ensures Push(Reached(q, tokens)).(token := t) == Reached(q, tokens + [t])
  {
    var more := tokens + [t];
    assert more[..|tokens|] == tokens;
    if |tokens| > 0 {
      assert tokens == tokens[..|tokens| - 1] + [tokens[|tokens| - 1]];
      assert q.tokens + tokens[..|tokens| - 1] + [tokens[|tokens| - 1]] == q.tokens + tokens;
    } else {
      assert q.tokens + tokens == q.tokens;
    }
  }

  lemma {:induction false} ItemsScan(q: Scanner, items: seq<Item>)
    requires q.mode == Normal && q.before == Normal && q.token == "" && ItemsOk(items)
    ensures Scan(q, SpelledItems(items)) == Reached(q, ItemTokens(items))
    ensures |items| > 0 ==> ItemTokens(items)[|items| - 1] != ""
  {
    if |items| > 0 {
      var front, last := items[..|items| - 1], items[|items| - 1];
      ItemsScan(q, front);
      ItemStep(q, SpelledItems(front), ItemTokens(front), last);
    }
  }

  lemma ItemStep(q: Scanner, text: string, tokens: seq<string>, item: Item)
    requires q.mode == Normal && q.before == Normal && q.token == "" && ItemOk(item, |tokens| == 0)
    requires Scan(q, text) == Reached(q, tokens) && (|tokens| > 0 ==> tokens[|tokens| - 1] != "")
    ensures Scan(q, text + item.gap + SpelledWord(item.word)) == Reached(q, tokens + [WordToken(item.word)])
  {
    ItemScans(Reached(q, tokens), item);
    ScanAppend(q, text, item.gap + SpelledWord(item.word));
    Assoc(text, item.gap, SpelledWord(item.word));
    ReachedNext(q, tokens, WordToken(item.word));
  }

  lemma Assoc(a: string, b: string, c: string)
    ensures a + b + c == a + (b + c)
  {
  }

  /** A line of words with gaps of blanks and tabs between them, and perhaps around them:
      one token for each word, and a word ends only at a gap outside its quotations. */
  lemma WordsAreTokens(items: seq<Item>, gap: string)
    requires ItemsOk(items) && IsGap(gap)
    ensures Push(Scan(START, SpelledItems(items) + gap)).tokens == ItemTokens(items)
  {
    ItemsScan(START, items);
    LastGap(SpelledItems(items), ItemTokens(items), gap);
  }

  lemma LastGap(text: string, tokens: seq<string>, gap: string)
    requires Scan(START, text) == Reached(START, tokens) && IsGap(gap)
    requires |tokens| > 0 ==> tokens[|tokens| - 1] != ""
    ensures Push(Scan(START, text + gap)).tokens == tokens
  {
    ScanAppend(START, text, gap);
    GapScans(Reached(START, tokens), gap);
    PushReached(tokens);
    PushTwice(Reached(START, tokens));
  }

  lemma PushReached(tokens: seq<string>)
    requires |tokens| > 0 ==> tokens[|tokens| - 1] != ""
    ensures Push(Reached(START, tokens)).tokens == tokens
  {
    if |tokens| > 0 {
      var front := tokens[..|tokens| - 1];
      assert [] + front == front && front + [tokens[|tokens| - 1]] == tokens;
    }
  }

  lemma PushTwice(q: Scanner)
    ensures Push(Push(q)) == Push(q)
  {
  }

  /** A quotation that the line does not close goes to its end; a last backslash in it is
      lost. */
  lemma OpenQuotation(q: Scanner, quote: char, inside: seq<Inner>, dangling: bool)
    requires q.mode == Normal && q.before == Normal && BitOk(Quoted(quote, inside))
    ensures var line := [quote] + SpelledInner(inside) + if dangling then "\\" else "";
            Push(Scan(q, line)).tokens == q.tokens + [q.token + [quote] + InnerToken(quote, inside)]
  {
    var entered := Scanner(ModeOf(quote), Normal, q.token + [quote], q.tokens);
    ScanAppend(q, [quote], SpelledInner(inside));
    ScanOne(q, quote);
    InnerScans(entered, quote, inside);
    var text := [quote] + SpelledInner(inside);
    if dangling {
      ScanAppend(q, text, "\\");
      ScanOne(Scan(q, text), '\\');
    } else {
      assert text + "" == text;
    }
  }

  /** What becomes of a token: double quotes around all of it go, other quotes stay, and a
      NUL ends it. */
  lemma TokenAsArgument(a: string, b: string)
    requires '\0' !in a
    ensures Stripped(Copied("\"" + a + "\"")) == a
    ensures !(|a| > 1 && a[0] == '"' && a[|a| - 1] == '"') ==> Stripped(Copied(a)) == a
    ensures Copied(a + ("\0" + b)) == a
  {
    IndexOfIs(a, '\0', "\0" + b);
    IndexOfIs(a, '\0', "");
    assert a + "" == a;
    var wrapped := "\"" + a + "\"";
    IndexOfIs(wrapped, '\0', "");
    assert wrapped + "" == wrapped;
  }
}
