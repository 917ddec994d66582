/** What string literals and numbers the parser reads, and as what. */
module JsonLiterals {
  import opened Decimal
  import opened JsonParser
  import opened JsonStrings
  import opened JsonValue

  // ---------- string literals ----------

  /** What a literal is written with. A `Lone` escape is NUL or half of a pair, and stands for
      nothing; so does a `Broken` pair, a high half before an escape that is no low half. */
  datatype Part =
    | Char(c: char)
    | Short(letter: char)
    | Scalar(hex: string)
    | Pair(high: string, low: string)
    | Lone(hex: string)
    | Broken(high: string, hex: string)

  predicate IsHex4(h: string) {
    |h| == 4 && forall k :: 0 <= k < 4 ==> IsHex(h[k])
  }

  /** The digits of both cases, and what they count. */
  lemma HexDigits(c: char, k: nat)
    requires k < 16
    ensures IsHex(c) <==> c in "0123456789abcdef" || c in "0123456789ABCDEF"
    ensures HexValue("0123456789abcdef"[k]) == k && HexValue("0123456789ABCDEF"[k]) == k
  {
  }

  predicate PartOk(p: Part) {
    match p
    case Char(c) => c != '"' && c != '\\' && c != '\0'
    case Short(letter) => letter != 'u' && letter != '\0'
    case Scalar(h) => IsHex4(h) && Hex4(h) != 0 && !(0xD800 <= Hex4(h) <= 0xDFFF)
    case Pair(high, low) =>
      IsHex4(high) && IsHex4(low) && 0xD800 <= Hex4(high) <= 0xDBFF && 0xDC00 <= Hex4(low) <= 0xDFFF
    case Lone(h) => IsHex4(h) && (Hex4(h) == 0 || 0xD800 <= Hex4(h) <= 0xDFFF)
    case Broken(high, h) =>
      IsHex4(high) && IsHex4(h) && 0xD800 <= Hex4(high) <= 0xDBFF && !(0xDC00 <= Hex4(h) <= 0xDFFF)
  }

  predicate IsHighAlone(p: Part) {
    p.Lone? && IsHex4(p.hex) && 0xD800 <= Hex4(p.hex) <= 0xDBFF
  }

  /** No high half stands alone before another escape of this kind. */
  predicate PartsOk(parts: seq<Part>) {
    |parts| == 0 ||
    (PartOk(parts[0]) && PartsOk(parts[1..])
     && (IsHighAlone(parts[0]) && |parts| > 1 ==> parts[1].Char? || parts[1].Short?))
  }

  function Spelled(p: Part): string {
    match p
    case Char(c) => [c]
    case Short(letter) => ['\\', letter]
    case Scalar(h) => "\\u" + h
    case Pair(high, low) => "\\u" + high + "\\u" + low
    case Lone(h) => "\\u" + h
    case Broken(high, h) => "\\u" + high + "\\u" + h
  }

  function Meaning(p: Part): string
    requires PartOk(p)
  {
    match p
    case Char(c) => [c]
    case Short(letter) =>
      if letter == 'b' then "\U{08}" else if letter == 'f' then "\U{0C}" else if letter == 'n' then "\U{0A}"
      else if letter == 'r' then "\U{0D}" else if letter == 't' then "\U{09}" else [letter]
    case Scalar(h) => EncodeUtf8(Hex4(h))
    case Pair(high, low) => EncodeUtf8(Combine(Hex4(high), Hex4(low)))
    case Lone(_) => ""
    case Broken(_, _) => ""
  }

  function SpelledAll(parts: seq<Part>): string {
    if |parts| == 0 then "" else Spelled(parts[0]) + SpelledAll(parts[1..])
  }

  function MeaningAll(parts: seq<Part>): string
    requires PartsOk(parts)
  {
    if |parts| == 0 then "" else Meaning(parts[0]) + MeaningAll(parts[1..])
  }

  /** What follows does not make a pair of a lone high half. */
  predicate Follows(p: Part, tail: string) {
    IsHighAlone(p) ==> |tail| < 2 || tail[0] != '\\' || tail[1] != 'u'
  }

  lemma EscapeRead(h: string, tail: string)
    requires IsHex4(h)
    ensures var t := "\\u" + h + tail;
            && t[..2] == "\\u" && t[2..] == h + tail && t[6..] == tail && Scanned(t[2..]) == Some(Hex4(h))
            && IsUnicodeEscape(t) && Room(t, 6)
  {
    var t := "\\u" + h + tail;
    assert t[2..] == h + tail && (h + tail)[..4] == h;
    FourDigits(t[2..]);
    assert forall k :: 0 <= k < 4 ==> t[k + 2] == h[k];
    assert t[2] == h[0] && t[3] == h[1] && t[4] == h[2] && t[5] == h[3];
  }

  lemma SinglePiece(h: string, tail: string, vars: Vars) returns (left: Vars)
    requires IsHex4(h) && (0xD800 <= Hex4(h) <= 0xDBFF ==> |tail| < 2 || tail[0] != '\\' || tail[1] != 'u')
    ensures var bytes := if Hex4(h) == 0 || 0xD800 <= Hex4(h) <= 0xDFFF then "" else EncodeUtf8(Hex4(h));
            NextPiece("\\u" + h + tail, vars) == Some(Piece(bytes, 6, left))
  {
    var t := "\\u" + h + tail;
    EscapeRead(h, tail);
    left := UnicodePiece(t, vars).value.vars;
    assert |t| >= 8 ==> t[6] == tail[0] && t[7] == tail[1];
  }

  lemma PairRead(high: string, low: string, tail: string)
    requires IsHex4(high) && IsHex4(low)
    ensures var t := "\\u" + high + ("\\u" + low + tail);
            && t[6..] == "\\u" + low + tail && t[12..] == tail && Scanned(t[8..]) == Some(Hex4(low)) && Room(t, 12)
            && |t| >= 12 && t[6] == '\\' && t[7] == 'u'
  {
    var rest := "\\u" + low + tail;
    var t := "\\u" + high + rest;
    EscapeRead(high, rest);
    EscapeRead(low, tail);
    assert t[8..] == rest[2..] && t[12..] == rest[6..];
    assert t[..12] == t[..6] + rest[..6];
  }

  lemma TwoPiece(high: string, low: string, tail: string, vars: Vars) returns (left: Vars)
    requires IsHex4(high) && IsHex4(low) && 0xD800 <= Hex4(high) <= 0xDBFF
    ensures var paired := 0xDC00 <= Hex4(low) <= 0xDFFF;
            var bytes := if paired then EncodeUtf8(Combine(Hex4(high), Hex4(low))) else "";
            NextPiece("\\u" + high + ("\\u" + low + tail), vars) == Some(Piece(bytes, 12, left))
  {
    var t := "\\u" + high + ("\\u" + low + tail);
    EscapeRead(high, "\\u" + low + tail);
    PairRead(high, low, tail);
    assert UnicodePiece(t, vars) == PairPiece(t, Hex4(high), vars.uc2);
    left := PairPiece(t, Hex4(high), vars.uc2).value.vars;
  }

  /** One turn of the second pass reads one part. */
  lemma PartRead(p: Part, tail: string, vars: Vars) returns (left: Vars)
    requires PartOk(p) && Follows(p, tail)
    ensures !AtEnd(Spelled(p) + tail)
    ensures NextPiece(Spelled(p) + tail, vars) == Some(Piece(Meaning(p), |Spelled(p)|, left))
  {
    left := vars;
    match p {
      case Char(_) =>
      case Short(_) =>
      case Scalar(h) => left := SinglePiece(h, tail, vars);
      case Lone(h) => left := SinglePiece(h, tail, vars);
      case Pair(high, low) =>
        left := TwoPiece(high, low, tail, vars);
        TwoSpelled(high, low, tail);
      case Broken(high, h) =>
        left := TwoPiece(high, h, tail, vars);
        TwoSpelled(high, h, tail);
    }
  }

  lemma TwoSpelled(high: string, low: string, tail: string)
    ensures ("\\u" + high + "\\u" + low) + tail == "\\u" + high + ("\\u" + low + tail)
  {
  }

  lemma PartEscapesOk(p: Part, tail: string)
    requires PartOk(p) && EscapesOk(tail)
    ensures EscapesOk(Spelled(p) + tail)
  {
    var t := Spelled(p) + tail;
    match p {
      case Char(_) => assert t[1..] == tail;
      case Short(_) => assert t[2..] == tail;
      case Scalar(h) => EscapeRead(h, tail);
      case Lone(h) => EscapeRead(h, tail);
      case Pair(high, low) => TwoEscapesOk(high, low, tail);
      case Broken(high, h) => TwoEscapesOk(high, h, tail);
    }
  }

  lemma TwoEscapesOk(high: string, low: string, tail: string)
    requires IsHex4(high) && IsHex4(low) && EscapesOk(tail)
    ensures EscapesOk(("\\u" + high + "\\u" + low) + tail)
  {
    EscapeRead(low, tail);
    EscapeRead(high, "\\u" + low + tail);
    TwoSpelled(high, low, tail);
  }

  lemma AllSpelled(parts: seq<Part>, end: string)
    requires |parts| > 0
    ensures SpelledAll(parts) + end == Spelled(parts[0]) + (SpelledAll(parts[1..]) + end)
  {
  }

  lemma StartsPlain(p: Part, more: string)
    requires PartOk(p) && (p.Char? || p.Short?)
    ensures var t := Spelled(p) + more; |t| < 2 || t[0] != '\\' || t[1] != 'u'
  {
  }

  lemma NextFollows(parts: seq<Part>, end: string)
    requires PartsOk(parts) && |parts| > 0 && AtEnd(end)
    ensures Follows(parts[0], SpelledAll(parts[1..]) + end)
  {
    if |parts| == 1 {
      assert SpelledAll(parts[1..]) + end == end;
    } else if IsHighAlone(parts[0]) {
      var rest := parts[1..];
      assert PartsOk(rest) && rest[0] == parts[1];
      AllSpelled(rest, end);
      StartsPlain(rest[0], SpelledAll(rest[1..]) + end);
    }
  }

  lemma PartStep(p: Part, tail: string, vars: Vars, left: Vars, r: Literal)
    requires PartOk(p) && !AtEnd(Spelled(p) + tail)
    requires NextPiece(Spelled(p) + tail, vars) == Some(Piece(Meaning(p), |Spelled(p)|, left))
    requires EscapesOk(tail) && Unescape(tail, left) == Some(r)
    ensures EscapesOk(Spelled(p) + tail)
    ensures Unescape(Spelled(p) + tail, vars) == Some(Literal(Meaning(p) + r.text, r.rest))
  {
    PartEscapesOk(p, tail);
    OneTurn(Spelled(p), tail, vars, Piece(Meaning(p), |Spelled(p)|, left), r);
  }

  lemma {:induction false} PartsRead(parts: seq<Part>, end: string, vars: Vars)
    requires PartsOk(parts) && AtEnd(end)
    ensures EscapesOk(SpelledAll(parts) + end)
    ensures Unescape(SpelledAll(parts) + end, vars) == Some(Literal(MeaningAll(parts), end))
  {
    if |parts| == 0 {
      assert "" + end == end;
    } else {
      var p, tail := parts[0], SpelledAll(parts[1..]) + end;
      NextFollows(parts, end);
      var left := PartRead(p, tail, vars);
      PartsRead(parts[1..], end, left);
      PartStep(p, tail, vars, left, Literal(MeaningAll(parts[1..]), end));
      AllSpelled(parts, end);
    }
  }

  lemma OneTurn(spelled: string, tail: string, vars: Vars, p: Piece, r: Literal)
    requires !AtEnd(spelled + tail) && NextPiece(spelled + tail, vars) == Some(p) && p.width == |spelled|
    requires Unescape(tail, p.vars) == Some(r)
    ensures Unescape(spelled + tail, vars) == Some(Literal(p.bytes + r.text, r.rest))
  {
    assert (spelled + tail)[p.width..] == tail;
  }

  /** A literal is read as what its parts mean, one after the other: characters as they are,
      short escapes as their characters, four digits as the UTF-8 form of their code point,
      pairs as that of theirs. One that the text does not close goes to its end. */
  lemma LiteralMeans(parts: seq<Part>, rest: string)
    requires PartsOk(parts)
    ensures StringAt("\"" + (SpelledAll(parts) + ("\"" + rest))) == Got(MeaningAll(parts), rest)
    ensures StringAt("\"" + SpelledAll(parts)) == Got(MeaningAll(parts), "")
  {
    PartsRead(parts, "\"" + rest, UNSET);
    LiteralIs(SpelledAll(parts) + ("\"" + rest), MeaningAll(parts), rest);
    PartsRead(parts, "", UNSET);
    assert SpelledAll(parts) + "" == SpelledAll(parts);
    UnclosedIs(SpelledAll(parts), MeaningAll(parts));
  }

  lemma UnclosedIs(t: string, text: string)
    requires EscapesOk(t) && Unescape(t, UNSET) == Some(Literal(text, ""))
    ensures StringAt("\"" + t) == Got(text, "")
  {
    PassesAgree(t, UNSET);
    assert ("\"" + t)[1..] == t;
  }

  /** What an escape leaves in its variable: the number itself if nothing is stored, and
      otherwise what is in the first byte beside its mark. */
  lemma LeftOver(h: string, tail: string, vars: Vars)
    requires IsHex4(h) && !(0xD800 <= Hex4(h) <= 0xDBFF)
    ensures var p, n := NextPiece("\\u" + h + tail, vars).value, Hex4(h);
            && NextPiece("\\u" + h + tail, vars).Some? && p.vars.uc.Some? && p.vars.uc2 == vars.uc2
            && (p.bytes == "" ==> p.vars.uc.value == n)
            && (|p.bytes| == 1 ==> p.vars.uc.value == p.bytes[0] as int)
            && (|p.bytes| == 2 ==> p.vars.uc.value == p.bytes[0] as int - 0xC0)
            && (|p.bytes| == 3 ==> p.vars.uc.value == p.bytes[0] as int - 0xE0)
  {
    EscapeRead(h, tail);
    var left := SinglePiece(h, tail, vars);
    assert NextPiece("\\u" + h + tail, vars) == UnicodePiece("\\u" + h + tail, vars);
  }

  /** Where no number follows, that is taken for it. */
  lemma MissingNumber(t: string, vars: Vars)
    requires |t| >= 2 && t[..2] == "\\u" && Room(t, 6) && Scanned(t[2..]) == None
    requires vars.uc.Some? && !(0xD800 <= vars.uc.value <= 0xDBFF)
    ensures NextPiece(t, vars).Some? && NextPiece(t, vars).value.width == 6
    ensures var n := vars.uc.value;
            NextPiece(t, vars).value.bytes == if n == 0 || 0xDC00 <= n <= 0xDFFF then "" else EncodeUtf8(n)
  {
    assert t[0] == '\\' && t[1] == 'u';
  }

  // ---------- numbers ----------

  datatype Power = NoPower | Power(mark: char, sign: string, digits: string)

  /** What a number is written with. The parser takes digits behind a zero, and does without
      them before a point and behind an exponent's mark. */
  datatype Numeral = Numeral(minus: bool, zero: bool, whole: string, fraction: string, power: Power)

  predicate PowerOk(p: Power) {
    p.Power? ==>
      && (p.mark == 'e' || p.mark == 'E') && (p.sign == "" || p.sign == "+" || p.sign == "-")
      && AllDigits(p.digits)
  }

  predicate NumeralOk(n: Numeral) {
    && AllDigits(n.whole) && AllDigits(n.fraction) && PowerOk(n.power)
    && (|n.whole| > 0 ==> n.whole[0] != '0')
    && (n.minus || n.zero || n.whole != "")
  }

  function PowerText(p: Power): string {
    match p
    case NoPower => ""
    case Power(mark, sign, digits) => [mark] + (sign + digits)
  }

  /** The part behind the point, and what follows. */
  function FractionText(n: Numeral): string {
    if n.fraction == "" then "" else "." + n.fraction
  }

  function Led(c: char, there: bool, text: string): string {
    if there then [c] + text else text
  }

  function NumeralText(n: Numeral): string {
    Led('-', n.minus, Led('0', n.zero, n.whole + (FractionText(n) + PowerText(n.power))))
  }

  function PowerValue(p: Power): int {
    match p
    case NoPower => 0
    case Power(_, sign, digits) =>
      var e: int := if AllDigits(digits) then Accumulate(digits, 0) else 0;
      if sign == "-" then -e else e
  }

  /** All digits as one number, with the point and the exponent taken together. */
  function NumeralValue(n: Numeral): real
    requires NumeralOk(n)
  {
    Scaled(n.minus, Accumulate(n.whole + n.fraction, 0), PowerValue(n.power) - |n.fraction|)
  }

  lemma ScaledIs(n: nat, e: int)
    ensures Scaled(false, n, e) == n as real * Pow10(e) && Scaled(true, n, e) == -(n as real * Pow10(e))
  {
  }

  /** Powers of ten, positive and negative. */
  lemma PowersOfTen(e: int)
    ensures Pow10(0) == 1.0 && Pow10(e + 1) == 10.0 * Pow10(e)
  {
    if e < -1 {
      TenTimes(PowPositive(-e - 1));
    }
  }

  lemma TenTimes(p: nat)
    requires p > 0
    ensures 1.0 / (p as real) == 10.0 * (1.0 / ((10 * p) as real))
  {
    assert (10 * p) as real == 10.0 * p as real;
  }

  lemma {:induction false} AccumulateMore(a: string, b: string, acc: nat)
    requires AllDigits(a) && AllDigits(b)
    ensures AllDigits(a + b) && Accumulate(a + b, acc) == Accumulate(b, Accumulate(a, acc))
  {
    if |a| == 0 {
      assert a + b == b;
    } else {
      AccumulateMore(a[1..], b, acc * 10 + DigitValue(a[0]));
      assert (a + b)[1..] == a[1..] + b;
    }
  }

  lemma DigitsRead(digits: string, acc: nat, rest: string)
    requires AllDigits(digits) && !IsDigit(At(rest, 0))
    ensures DigitsAt(digits + rest, acc) == Digested(Accumulate(digits, acc), |digits|, rest)
  {
    RunIs(digits, rest);
    assert (digits + rest)[..|digits|] == digits && (digits + rest)[|digits|..] == rest;
  }

  /** What follows is no part of the integer. */
  predicate WholeEnds(zero: bool, whole: string, c: char) {
    if whole != "" then !IsDigit(c) else !('1' <= c <= '9') && (zero || c != '0')
  }

  /** What follows is no part of the number. */
  predicate Ends(n: Numeral, rest: string) {
    var c := At(rest, 0);
    match n.power
    case Power(_, sign, digits) => !IsDigit(c) && (sign == "" && digits == "" ==> c != '+' && c != '-')
    case NoPower =>
      && c != 'e' && c != 'E'
      && (if n.fraction != "" then !IsDigit(c)
          else WholeEnds(n.zero, n.whole, c) && (c != '.' || |rest| < 2 || !IsDigit(rest[1])))
  }

  lemma PowerRead(p: Power, rest: string)
    requires PowerOk(p)
    requires match p
             case Power(_, sign, digits) =>
               !IsDigit(At(rest, 0)) && (sign == "" && digits == "" ==> At(rest, 0) != '+' && At(rest, 0) != '-')
             case NoPower => At(rest, 0) != 'e' && At(rest, 0) != 'E'
    ensures ExponentAt(PowerText(p) + rest) == Exponent(PowerValue(p), rest)
  {
    match p {
      case NoPower => assert "" + rest == rest;
      case Power(mark, sign, digits) =>
        var t, u, v := PowerText(p) + rest, sign + (digits + rest), digits + rest;
        assert t[0] == mark && t[1..] == u;
        DigitsRead(digits, 0, rest);
        SignSplits(sign, v);
        ExponentIs(t, u, v, sign, Accumulate(digits, 0), |digits|, rest);
    }
  }

  lemma SignSplits(sign: string, v: string)
    requires sign == "" || sign == "+" || sign == "-"
    ensures sign == "" ==> sign + v == v
    ensures sign != "" ==> At(sign + v, 0) == sign[0] && (sign + v)[1..] == v
  {
  }

  lemma ExponentIs(t: string, u: string, v: string, sign: string, n: nat, count: nat, rest: string)
    requires (At(t, 0) == 'e' || At(t, 0) == 'E') && t[1..] == u
    requires if sign == "" then v == u && At(u, 0) != '+' && At(u, 0) != '-'
             else (sign == "+" || sign == "-") && At(u, 0) == sign[0] && u[1..] == v
    requires DigitsAt(v, 0) == Digested(n, count, rest)
    ensures ExponentAt(t) == Exponent((if sign == "-" then -1 else 1) * n, rest)
  {
  }

  lemma FractionRead(n: Numeral, acc: nat, more: string)
    requires AllDigits(n.fraction) && (n.fraction != "" ==> !IsDigit(At(more, 0)))
    requires n.fraction == "" ==> At(more, 0) != '.' || |more| < 2 || !IsDigit(more[1])
    ensures FractionAt(FractionText(n) + more, acc) == Digested(Accumulate(n.fraction, acc), |n.fraction|, more)
  {
    var t := FractionText(n) + more;
    if n.fraction == "" {
      assert t == more;
    } else {
      assert t[0] == '.' && t[1..] == n.fraction + more && t[1] == n.fraction[0];
      DigitsRead(n.fraction, acc, more);
    }
  }

  lemma WholeRead(zero: bool, whole: string, more: string)
    requires AllDigits(whole) && (|whole| > 0 ==> whole[0] != '0') && WholeEnds(zero, whole, At(more, 0))
    ensures var d := IntegerAt(Led('0', zero, whole + more)); d.n == Accumulate(whole, 0) && d.rest == more
  {
    var u := whole + more;
    LedIs('0', zero, u);
    IntegerIs(Led('0', zero, u), u);
    if whole == "" {
      assert u == more;
    } else {
      assert u[0] == whole[0] && '1' <= u[0] <= '9';
      DigitsRead(whole, 0, more);
    }
  }

  lemma LedIs(c: char, there: bool, text: string)
    ensures there ==> |Led(c, there, text)| > 0 && Led(c, there, text)[0] == c && Led(c, there, text)[1..] == text
    ensures !there ==> Led(c, there, text) == text
  {
  }

  lemma IntegerIs(t: string, u: string)
    requires u == if At(t, 0) == '0' then t[1..] else t
    ensures IntegerAt(t) == if '1' <= At(u, 0) <= '9' then DigitsAt(u, 0) else Digested(0, 0, u)
  {
  }

  /** A number is read as what its digits, its point and its exponent say. */
  lemma NumberMeans(n: Numeral, rest: string)
    requires NumeralOk(n) && Ends(n, rest)
    ensures StartsNumber(NumeralText(n) + rest)
    ensures NumberAt(NumeralText(n) + rest) == Got(Number(NumeralValue(n)), rest)
  {
    var power := PowerText(n.power) + rest;
    var more := FractionText(n) + power;
    NumeralSplits(n, rest);
    NumeralRead(n, rest, power, more, Led('0', n.zero, n.whole + more), Accumulate(n.whole + n.fraction, 0));
  }

  lemma NumeralRead(n: Numeral, rest: string, power: string, more: string, u: string, digits: nat)
    requires NumeralOk(n) && Ends(n, rest) && digits == Accumulate(n.whole + n.fraction, 0)
    requires power == PowerText(n.power) + rest && more == FractionText(n) + power
    requires u == Led('0', n.zero, n.whole + more)
    ensures var t := Led('-', n.minus, u);
            && StartsNumber(t)
            && NumberAt(t) == Got(Number(Scaled(n.minus, digits, PowerValue(n.power) - |n.fraction|)), rest)
  {
    NumeralReads(n, rest);
    PartsOfNumber(n, u, more, digits, power, rest);
  }

  lemma NumeralReads(n: Numeral, rest: string)
    requires NumeralOk(n) && Ends(n, rest)
    ensures var power := PowerText(n.power) + rest;
            var more := FractionText(n) + power;
            var whole := IntegerAt(Led('0', n.zero, n.whole + more));
            && whole.n == Accumulate(n.whole, 0) && whole.rest == more
            && FractionAt(more, whole.n) == Digested(Accumulate(n.whole + n.fraction, 0), |n.fraction|, power)
            && ExponentAt(power) == Exponent(PowerValue(n.power), rest)
  {
    var power := PowerText(n.power) + rest;
    PowerRead(n.power, rest);
    PowerStarts(n, rest);
    FractionRead(n, Accumulate(n.whole, 0), power);
    WholeRead(n.zero, n.whole, FractionText(n) + power);
    AccumulateMore(n.whole, n.fraction, 0);
  }

  lemma PowerStarts(n: Numeral, rest: string)
    requires NumeralOk(n) && Ends(n, rest)
    ensures var power := PowerText(n.power) + rest;
            var more := FractionText(n) + power;
            && (n.fraction != "" ==> !IsDigit(At(power, 0)))
            && (n.fraction == "" ==> At(power, 0) != '.' || |power| < 2 || !IsDigit(power[1]))
            && WholeEnds(n.zero, n.whole, At(more, 0))
  {
    var power := PowerText(n.power) + rest;
    if n.power.NoPower? {
      assert power == rest;
    } else {
      assert power[0] == n.power.mark;
    }
    if n.fraction == "" {
      assert FractionText(n) + power == power;
    }
  }

  lemma NumeralSplits(n: Numeral, rest: string)
    ensures NumeralText(n) + rest
         == Led('-', n.minus, Led('0', n.zero, n.whole + (FractionText(n) + (PowerText(n.power) + rest))))
  {
    var f, p := FractionText(n), PowerText(n.power);
    assert n.whole + (f + p) + rest == n.whole + (f + (p + rest));
    LedMore('0', n.zero, n.whole + (f + p), rest);
    LedMore('-', n.minus, Led('0', n.zero, n.whole + (f + p)), rest);
  }

  lemma LedMore(c: char, there: bool, text: string, more: string)
    ensures Led(c, there, text) + more == Led(c, there, text + more)
  {
  }

  lemma PartsOfNumber(n: Numeral, u: string, more: string, digits: nat, power: string, rest: string)
    requires NumeralOk(n) && u == Led('0', n.zero, n.whole + more)
    requires IntegerAt(u).n == Accumulate(n.whole, 0) && IntegerAt(u).rest == more
    requires FractionAt(more, Accumulate(n.whole, 0)) == Digested(digits, |n.fraction|, power)
    requires ExponentAt(power) == Exponent(PowerValue(n.power), rest)
    ensures var t := Led('-', n.minus, u);
            && StartsNumber(t)
            && NumberAt(t) == Got(Number(Scaled(n.minus, digits, PowerValue(n.power) - |n.fraction|)), rest)
  {
    SignRead(n, more);
    NumberIs(Led('-', n.minus, u), n.minus, u, n.whole, more, digits, |n.fraction|, power, PowerValue(n.power), rest);
  }

  lemma SignRead(n: Numeral, more: string)
    requires NumeralOk(n)
    ensures var u := Led('0', n.zero, n.whole + more);
            var t := Led('-', n.minus, u);
            StartsNumber(t) && n.minus == (At(t, 0) == '-') && u == (if n.minus then t[1..] else t)
  {
    var u := Led('0', n.zero, n.whole + more);
    LedIs('-', n.minus, u);
    LedIs('0', n.zero, n.whole + more);
    if !n.zero && n.whole != "" {
      assert u[0] == n.whole[0];
    }
  }

  lemma NumberIs(t: string, minus: bool, u: string, whole: string, more: string, digits: nat, count: nat,
        power: string, e: int, rest: string)
    requires StartsNumber(t) && minus == (At(t, 0) == '-') && u == (if minus then t[1..] else t)
    requires AllDigits(whole) && IntegerAt(u).n == Accumulate(whole, 0) && IntegerAt(u).rest == more
    requires FractionAt(more, Accumulate(whole, 0)) == Digested(digits, count, power)
    requires ExponentAt(power) == Exponent(e, rest)
    ensures NumberAt(t) == Got(Number(Scaled(minus, digits, e - count)), rest)
  {
  }

  // ---------- the numbers that `sscanf` reads ----------

  /** Digits continuing `acc`. */
  function HexFrom(digits: string, acc: nat): nat
    requires forall k :: 0 <= k < |digits| ==> IsHex(digits[k])
  {
    if |digits| == 0 then acc else HexFrom(digits[1..], acc * 16 + HexValue(digits[0]))
  }

  lemma {:induction false} HexFromNext(digits: string, d: char, acc: nat)
    requires IsHex(d) && forall k :: 0 <= k < |digits| ==> IsHex(digits[k])
    ensures HexFrom(digits + [d], acc) == HexFrom(digits, acc) * 16 + HexValue(d)
  {
    if |digits| == 0 {
      assert digits + [d] == [d] && [d][1..] == "";
    } else {
      HexFromNext(digits[1..], d, acc * 16 + HexValue(digits[0]));
      assert (digits + [d])[1..] == digits[1..] + [d];
    }
  }

  lemma {:induction false} RunOfHex(digits: string, rest: string, width: nat, acc: nat)
    requires |digits| <= width && forall k :: 0 <= k < |digits| ==> IsHex(digits[k])
    requires |digits| < width ==> !IsHex(At(rest, 0))
    ensures HexRun(digits + rest, width, acc) == HexFrom(digits, acc)
  {
    if |digits| == 0 {
      assert digits + rest == rest;
    } else {
      RunOfHex(digits[1..], rest, width - 1, acc * 16 + HexValue(digits[0]));
      assert (digits + rest)[1..] == digits[1..] + rest;
    }
  }

  /** One to four characters: digits, perhaps behind `0x`, as far as the width goes. */
  predicate IsUnsigned(prefix: string, digits: string, width: nat, rest: string) {
    && (prefix == "" || prefix == "0x" || prefix == "0X")
    && |digits| > 0 && |prefix| + |digits| <= width && (forall k :: 0 <= k < |digits| ==> IsHex(digits[k]))
    && (|prefix| + |digits| < width ==> !IsHex(At(rest, 0)))
    && (prefix == "" && digits == "0" ==> At(rest, 0) != 'x' && At(rest, 0) != 'X')
  }

  lemma UnsignedRead(prefix: string, digits: string, width: nat, rest: string)
    requires width <= 4 && IsUnsigned(prefix, digits, width, rest)
    ensures Unsigned(prefix + (digits + rest), width) == Some(HexFrom(digits, 0))
  {
    var t := prefix + (digits + rest);
    RunOfHex(digits, rest, width - |prefix|, 0);
    assert (digits + rest)[0] == digits[0];
    if prefix == "" {
      assert t == digits + rest;
      assert |t| > 1 ==> t[1] == if |digits| > 1 then digits[1] else rest[0];
      assert |digits| == 1 ==> digits == [digits[0]];
    } else {
      assert t[0] == '0' && t[1] == prefix[1] && t[2..] == digits + rest;
    }
  }

  lemma {:induction false} BlanksSkipped(blanks: string, t: string)
    requires forall k :: 0 <= k < |blanks| ==> blanks[k] == ' ' || 9 <= blanks[k] as int <= 13
    requires |t| > 0 ==> t[0] != ' ' && !(9 <= t[0] as int <= 13)
    ensures SkipBlanks(blanks + t) == t
  {
    if |blanks| == 0 {
      assert blanks + t == t;
    } else {
      BlanksSkipped(blanks[1..], t);
      assert (blanks + t)[1..] == blanks[1..] + t;
    }
  }

  /** Blanks, a sign that counts among the four characters, and the number; a negative one is
      taken modulo 2^32. */
  lemma ScansNumber(blanks: string, sign: string, prefix: string, digits: string, rest: string)
    requires forall k :: 0 <= k < |blanks| ==> blanks[k] == ' ' || 9 <= blanks[k] as int <= 13
    requires sign == "" || sign == "+" || sign == "-"
    requires IsUnsigned(prefix, digits, 4 - |sign|, rest)
    ensures var n := HexFrom(digits, 0);
            Scanned(blanks + (sign + (prefix + (digits + rest))))
            == Some(if sign == "-" && n > 0 then 0x1_0000_0000 - n else n)
  {
    var u := prefix + (digits + rest);
    UnsignedRead(prefix, digits, 4 - |sign|, rest);
    assert u[0] == if prefix == "" then digits[0] else '0';
    if sign == "" {
      assert sign + u == u;
    } else {
      assert (sign + u)[0] == sign[0] && (sign + u)[1..] == u;
    }
    BlanksSkipped(blanks, sign + u);
  }

  // ---------- printed strings ----------

  /** A printed string has the seven short escapes, `\u00` and two digits for the other control
      characters, and every other character as it is. */
  lemma EscapeForms(c: char)
    ensures c == '"' ==> EscapeChar(c) == "\\\""
    ensures c == '\\' ==> EscapeChar(c) == "\\\\"
    ensures c as int == 8 ==> EscapeChar(c) == "\\b"
    ensures c as int == 9 ==> EscapeChar(c) == "\\t"
    ensures c as int == 10 ==> EscapeChar(c) == "\\n"
    ensures c as int == 12 ==> EscapeChar(c) == "\\f"
    ensures c as int == 13 ==> EscapeChar(c) == "\\r"
    ensures c as int >= 32 && c != '"' && c != '\\' ==> EscapeChar(c) == [c]
    ensures c as int < 32 && c as int !in {8, 9, 10, 12, 13} ==>
              && |EscapeChar(c)| == 6 && EscapeChar(c)[..4] == "\\u00"
              && EscapeChar(c)[4] == "0123456789abcdef"[c as int / 16]
              && EscapeChar(c)[5] == "0123456789abcdef"[c as int % 16]
  {
    if c as int < 32 {
      HexDigitIs(c as int / 16);
      HexDigitIs(c as int % 16);
    }
  }

  lemma HexDigitIs(n: nat)
    requires n < 16
    ensures HexDigit(n) == "0123456789abcdef"[n]
  {
  }
}
