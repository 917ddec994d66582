/** String literals: the escaping printer, the two-pass unescaping parser, and the
    UTF-8 it emits for `\u` escapes. */
module JsonStrings {
  import opened JsonValue
  import TextUtils

  // ---------- hexadecimal digits ----------

  predicate IsHex(c: char) {
    '0' <= c <= '9' || 'a' <= c <= 'f' || 'A' <= c <= 'F'
  }

  function HexValue(c: char): nat
    requires IsHex(c)
  {
    if '0' <= c <= '9' then c as int - '0' as int
    else if 'a' <= c <= 'f' then c as int - 'a' as int + 10
    else c as int - 'A' as int + 10
  }

  /** A lower-case digit, as `%x` prints it. */
  function HexDigit(n: nat): (c: char)
    requires n < 16
    ensures IsHex(c) && HexValue(c) == n
  {
    if n < 10 then ('0' as int + n) as char else ('a' as int + n - 10) as char
  }

  function Hex4(h: string): (n: nat)
    requires |h| == 4 && forall k :: 0 <= k < 4 ==> IsHex(h[k])
    ensures n < 0x1_0000
  {
    HexValue(h[0]) * 0x1000 + HexValue(h[1]) * 0x100 + HexValue(h[2]) * 0x10 + HexValue(h[3])
  }

  // ---------- sscanf("%4x") ----------

  function SkipBlanks(t: string): string {
    if |t| > 0 && TextUtils.IsSpace(t[0]) then SkipBlanks(t[1..]) else t
  }

  /** The number the leading digits of `t`, at most `width` of them, continue `acc` to. */
  function HexRun(t: string, width: nat, acc: nat): nat
    decreases width
  {
    if width == 0 || |t| == 0 || !IsHex(t[0]) then acc else HexRun(t[1..], width - 1, acc * 16 + HexValue(t[0]))
  }

  /** More than `acc` can be continued to by `width` digits. */
  function HexBound(width: nat, acc: nat): nat {
    match width
    case 0 => acc + 1
    case 1 => (acc + 1) * 0x10
    case 2 => (acc + 1) * 0x100
    case 3 => (acc + 1) * 0x1000
    case _ => (acc + 1) * 0x1_0000
  }

  lemma {:induction false} HexRunBound(t: string, width: nat, acc: nat)
    requires width <= 4
    ensures HexRun(t, width, acc) < HexBound(width, acc)
    decreases width
  {
    if width > 0 && |t| > 0 && IsHex(t[0]) {
      HexRunBound(t[1..], width - 1, acc * 16 + HexValue(t[0]));
    }
  }

  /** At most `width` characters: digits, perhaps after `0x`. */
  function Unsigned(t: string, width: nat): (n: Option<nat>)
    requires width <= 4
    ensures n.Some? ==> n.value < 0x1_0000 && (width <= 3 ==> n.value < 0x1000)
  {
    var prefixed := |t| > 1 && t[0] == '0' && (t[1] == 'x' || t[1] == 'X');
    var digits := if prefixed then t[2..] else t;
    var most := if !prefixed then width else if width > 2 then width - 2 else 0;
    HexRunBound(digits, most, 0);
    if most > 0 && |digits| > 0 && IsHex(digits[0]) then Some(HexRun(digits, most, 0)) else None
  }

  /** The number that is stored, a negative one modulo 2^32; none without a digit. */
  function Scanned(t: string): (n: Option<nat>)
    ensures n.Some? ==> n.value < 0x1_0000 || 0xFFFF_F000 < n.value < 0x1_0000_0000
  {
    var u := SkipBlanks(t);
    if |u| > 0 && (u[0] == '+' || u[0] == '-') then
      match Unsigned(u[1..], 3)
      case Some(n) => Some(if u[0] == '-' && n > 0 then 0x1_0000_0000 - n else n)
      case None => None
    else Unsigned(u, 4)
  }

  /** Four digits are read whole. */
  lemma FourDigits(t: string)
    requires |t| >= 4 && forall k :: 0 <= k < 4 ==> IsHex(t[k])
    ensures Scanned(t) == Some(Hex4(t[..4]))
  {
    assert SkipBlanks(t) == t;
    assert t[1..][1..] == t[2..] && t[2..][1..] == t[3..] && t[3..][1..] == t[4..];
    assert HexRun(t, 4, 0) == HexRun(t[1..], 3, HexValue(t[0]));
    assert HexRun(t[1..], 3, HexValue(t[0])) == HexRun(t[2..], 2, HexValue(t[0]) * 16 + HexValue(t[1]));
    assert HexRun(t[2..], 2, HexValue(t[0]) * 16 + HexValue(t[1]))
        == HexRun(t[3..], 1, (HexValue(t[0]) * 16 + HexValue(t[1])) * 16 + HexValue(t[2]));
  }

  // ---------- code points ----------

  /** `((uc | 0x80) & 0xBF)`, see `BitForms`. */
  function Continuation(uc: nat): char {
    (0x80 + uc % 0x40) as char
  }

  function EncodedLength(uc: nat): nat {
    if uc < 0x80 then 1 else if uc < 0x800 then 2 else if uc < 0x1_0000 then 3 else 4
  }

  /** What a `\u` or a pair of them can stand for; the large ones come from minus signs. */
  type CodePoint = uc: nat | uc < 0x10_0000 || 0xFFFF_F000 < uc < 0x1_0000_0000

  /** `(uc >> 18) | 0xF0`, cut to a byte. */
  function FirstOfFour(uc: CodePoint): char {
    if uc < 0x10_0000 then (0xF0 + uc / 0x4_0000) as char else 0xFF as char
  }

  /** The bytes the `\u` branch stores for `uc`. */
  function EncodeUtf8(uc: CodePoint): (bytes: string)
    ensures |bytes| == EncodedLength(uc)
    ensures uc != 0 ==> NulFree(bytes)
  {
    if uc < 0x80 then [uc as char]
    else if uc < 0x800 then [(0xC0 + uc / 0x40) as char, Continuation(uc)]
    else if uc < 0x1_0000 then [(0xE0 + uc / 0x1000) as char, Continuation(uc / 0x40), Continuation(uc)]
    else [FirstOfFour(uc), Continuation(uc / 0x1000), Continuation(uc / 0x40), Continuation(uc)]
  }

  /** What the shifts between the bytes leave of `uc`. */
  function ShiftedOut(uc: CodePoint): CodePoint {
    if uc < 0x80 then uc else if uc < 0x800 then uc / 0x40 else if uc < 0x1_0000 then uc / 0x1000 else uc / 0x4_0000
  }

  /** The source's bit expressions are the arithmetic used here: masks and shifts are
      remainders and quotients, and `|` is `+` on fields that do not overlap. */
  lemma BitForms(uc: bv32)
    ensures (uc & 0x3F) == uc % 0x40 && (uc & 0x3FF) == uc % 0x400 && uc >> 6 == uc / 0x40
    ensures ((uc | 0x80) & 0xBF) == 0x80 + (uc & 0x3F)
    ensures ((uc & 0x1F) | 0xC0) == 0xC0 + (uc & 0x1F)
    ensures ((uc & 0x0F) | 0xE0) == 0xE0 + (uc & 0x0F)
    ensures ((uc & 0x07) | 0xF0) == 0xF0 + (uc & 0x07)
    ensures uc > 0xFFFF_F000 ==> ((uc >> 18) | 0xF0) & 0xFF == 0xFF
    ensures 0x1_0000 | (uc & 0xF_FFFF)
         == if ((uc & 0xF_FFFF) >> 16) & 1 == 1 then uc & 0xF_FFFF else (uc & 0xF_FFFF) + 0x1_0000
  {
  }

  predicate IsHighSurrogate(uc: nat) { 0xD800 <= uc <= 0xDBFF }

  predicate IsLowSurrogate(uc: nat) { 0xDC00 <= uc <= 0xDFFF }

  /** `0x10000 | ((hi & 0x3FF) << 10) | (lo & 0x3FF)`, see `BitForms`. */
  function Combine(hi: nat, lo: nat): (uc: nat)
    requires IsHighSurrogate(hi) && IsLowSurrogate(lo)
    ensures 0x1_0000 <= uc < 0x10_0000
  {
    var x := (hi % 0x400) * 0x400 + lo % 0x400;
    if (x / 0x1_0000) % 2 == 1 then x else x + 0x1_0000
  }

  /** Section 2.2 of RFC 2781. */
  function Rfc2781Decode(hi: nat, lo: nat): nat
    requires IsHighSurrogate(hi) && IsLowSurrogate(lo)
  {
    (hi - 0xD800) * 0x400 + (lo - 0xDC00) + 0x1_0000
  }

  /** `|` in place of `+`: the pair is decoded as RFC 2781 says exactly when bit 0x40
      of the high half is clear, and comes out 0x10000 too low otherwise. */
  lemma SurrogatePairs(hi: nat, lo: nat)
    requires IsHighSurrogate(hi) && IsLowSurrogate(lo)
    ensures Combine(hi, lo) == Rfc2781Decode(hi, lo) <==> (hi / 0x40) % 2 == 0
    ensures (hi / 0x40) % 2 == 1 ==> Combine(hi, lo) == Rfc2781Decode(hi, lo) - 0x1_0000
    ensures Rfc2781Decode(hi, lo) < 0x2_0000 ==> Combine(hi, lo) == Rfc2781Decode(hi, lo)
  {
    var h, l := hi - 0xD800, lo - 0xDC00;
    assert hi % 0x400 == h && lo % 0x400 == l;
    assert (h * 0x400 + l) / 0x1_0000 == h / 0x40;
    assert hi / 0x40 == 0x360 + h / 0x40;
  }

  predicate IsTail(c: char) { 0x80 <= c as int <= 0xBF }

  function TailBits(c: char): nat requires IsTail(c) { c as int - 0x80 }

  /** Section 3 of RFC 3629: the scalar value a byte sequence stands for, if it is
      the UTF-8 form of one. Overlong forms and surrogates are not. */
  function Rfc3629Decode(b: string): Option<nat> {
    if |b| == 1 && b[0] as int < 0x80 then Some(b[0] as int)
    else if |b| == 2 && 0xC0 <= b[0] as int < 0xE0 && IsTail(b[1]) then
      Scalar((b[0] as int - 0xC0) * 0x40 + TailBits(b[1]), 0x80)
    else if |b| == 3 && 0xE0 <= b[0] as int < 0xF0 && IsTail(b[1]) && IsTail(b[2]) then
      Scalar((b[0] as int - 0xE0) * 0x1000 + TailBits(b[1]) * 0x40 + TailBits(b[2]), 0x800)
    else if |b| == 4 && 0xF0 <= b[0] as int < 0xF8 && IsTail(b[1]) && IsTail(b[2]) && IsTail(b[3]) then
      Scalar((b[0] as int - 0xF0) * 0x4_0000 + TailBits(b[1]) * 0x1000 + TailBits(b[2]) * 0x40 + TailBits(b[3]),
             0x1_0000)
    else None
  }

  function Scalar(n: nat, least: nat): Option<nat> {
    if least <= n < 0x11_0000 && !IsHighSurrogate(n) && !IsLowSurrogate(n) then Some(n) else None
  }

  lemma EncodedDecodes(uc: nat)
    requires uc < 0x10_0000 && !IsHighSurrogate(uc) && !IsLowSurrogate(uc)
    ensures Rfc3629Decode(EncodeUtf8(uc)) == Some(uc)
  {
    var q := uc / 0x40;
    assert uc == q * 0x40 + uc % 0x40;
    assert uc / 0x1000 == q / 0x40;
    assert uc / 0x4_0000 == q / 0x40 / 0x40;
  }

  lemma Shifts(uc: nat)
    ensures uc / 0x40 / 0x40 == uc / 0x1000 && uc / 0x1000 / 0x40 == uc / 0x4_0000
  {
  }

  lemma Digits64(a: nat, b: nat, c: nat, d: nat)
    requires b < 0x40 && c < 0x40 && d < 0x40
    ensures var n := ((a * 0x40 + b) * 0x40 + c) * 0x40 + d;
            n % 0x40 == d && n / 0x40 == (a * 0x40 + b) * 0x40 + c
            && n / 0x40 % 0x40 == c && n / 0x1000 == a * 0x40 + b
            && n / 0x1000 % 0x40 == b && n / 0x4_0000 == a
  {
    var n := ((a * 0x40 + b) * 0x40 + c) * 0x40 + d;
    assert n / 0x40 == (a * 0x40 + b) * 0x40 + c;
    assert n / 0x1000 == n / 0x40 / 0x40 == a * 0x40 + b;
    assert n / 0x4_0000 == n / 0x1000 / 0x40 == a;
  }

  lemma DecodedEncodes(b: string)
    requires Rfc3629Decode(b).Some? && Rfc3629Decode(b).value < 0x10_0000
    ensures b == EncodeUtf8(Rfc3629Decode(b).value)
  {
    if |b| == 2 {
      Digits64(0, 0, b[0] as int - 0xC0, TailBits(b[1]));
    } else if |b| == 3 {
      Digits64(0, b[0] as int - 0xE0, TailBits(b[1]), TailBits(b[2]));
    } else if |b| == 4 {
      Digits64(b[0] as int - 0xF0, TailBits(b[1]), TailBits(b[2]), TailBits(b[3]));
    }
  }

  /** What is stored for a code point is its UTF-8 form, and its only one. */
  lemma EncodesRfc3629(uc: nat, b: string)
    requires 0 < uc < 0x10_0000 && !IsHighSurrogate(uc) && !IsLowSurrogate(uc)
    ensures Rfc3629Decode(b) == Some(uc) <==> b == EncodeUtf8(uc)
  {
    EncodedDecodes(uc);
    if Rfc3629Decode(b) == Some(uc) {
      DecodedEncodes(b);
    }
  }

  // ---------- parse_string: what it computes ----------

  /** The loops stop at the closing quote or at the terminator. */
  predicate AtEnd(t: string) {
    |t| == 0 || t[0] == '"' || t[0] == '\0'
  }

  datatype Scan = Scan(len: nat, rest: string)

  /** First pass: the buffer length, and where the pass stops; none if it steps over the
      terminator. */
  function Measure(t: string): (s: Option<Scan>)
    decreases |t|
  {
    if AtEnd(t) then Some(Scan(0, t))
    else if t[0] != '\\' then Count(Measure(t[1..]))
    else if |t| < 2 || t[1] == '\0' then None
    else Count(Measure(t[2..]))
  }

  function Count(after: Option<Scan>): Option<Scan> {
    match after
    case Some(s) => Some(Scan(1 + s.len, s.rest))
    case None => None
  }

  /** What the last `\u` escapes have left in the variables `uc` and `uc2`. */
  datatype Vars = Vars(uc: Option<CodePoint>, uc2: Option<nat>)

  const UNSET := Vars(None, None)

  datatype Piece = Piece(bytes: string, width: nat, vars: Vars)

  function SimpleEscape(c: char): char {
    match c
    case 'b' => '\U{08}'
    case 'f' => '\U{0C}'
    case 'n' => '\n'
    case 'r' => '\r'
    case 't' => '\t'
    case _ => c
  }

  /** The terminator is not among the first `n` characters. */
  predicate Room(t: string, n: nat) {
    |t| >= n && NulFree(t[..n])
  }

  /** A scan without a number leaves the variable as it is. */
  function Rescanned(t: string, uc: Option<CodePoint>): Option<CodePoint> {
    match Scanned(t)
    case Some(n) => Some(n)
    case None => uc
  }

  function Rescanned2(t: string, uc2: Option<nat>): Option<nat> {
    if Scanned(t).Some? then Scanned(t) else uc2
  }

  /** One `\u` escape, or a pair of them: what it stores and how much text it uses.
      NUL, unpaired halves and half-valid pairs store nothing. None if a variable without a
      value is used or the terminator is stepped over. */
  function UnicodePiece(t: string, vars: Vars): (p: Option<Piece>)
    requires |t| >= 2 && t[0] == '\\' && t[1] == 'u'
    ensures p.Some? ==> p.value.width <= |t| && NulFree(p.value.bytes)
    ensures p.Some? ==> (p.value.width == 6 || p.value.width == 12) && |p.value.bytes| <= 4
  {
    if !Room(t, 6) || Rescanned(t[2..], vars.uc).None? then None
    else
      var uc := Rescanned(t[2..], vars.uc).value;
      if uc == 0 || IsLowSurrogate(uc) then Some(Piece("", 6, vars.(uc := Some(uc))))
      else if !IsHighSurrogate(uc) then Some(Piece(EncodeUtf8(uc), 6, vars.(uc := Some(ShiftedOut(uc)))))
      else if |t| < 8 || t[6] != '\\' || t[7] != 'u' then Some(Piece("", 6, vars.(uc := Some(uc))))
      else PairPiece(t, uc, vars.uc2)
  }

  function PairPiece(t: string, hi: nat, last: Option<nat>): (p: Option<Piece>)
    requires |t| >= 8 && IsHighSurrogate(hi)
    ensures p.Some? ==> p.value.width == 12 <= |t| && NulFree(p.value.bytes) && |p.value.bytes| <= 4
  {
    if !Room(t, 12) || Rescanned2(t[8..], last).None? then None
    else
      var lo := Rescanned2(t[8..], last).value;
      if !IsLowSurrogate(lo) then Some(Piece("", 12, Vars(Some(hi), Some(lo))))
      else
        var uc := Combine(hi, lo);
        Some(Piece(EncodeUtf8(uc), 12, Vars(Some(ShiftedOut(uc)), Some(lo))))
  }

  /** What one turn of the second pass stores and consumes. */
  function NextPiece(t: string, vars: Vars): (p: Option<Piece>)
    requires !AtEnd(t)
    ensures p.Some? ==> 0 < p.value.width <= |t| && NulFree(p.value.bytes)
  {
    if t[0] != '\\' then Some(Piece([t[0]], 1, vars))
    else if |t| < 2 || t[1] == '\0' then None
    else if t[1] == 'u' then UnicodePiece(t, vars)
    else Some(Piece([SimpleEscape(t[1])], 2, vars))
  }

  datatype Literal = Literal(text: string, rest: string)

  /** Second pass: the text stored, and where the pass stops. */
  function Unescape(t: string, vars: Vars): (r: Option<Literal>)
    ensures r.Some? ==> |r.value.rest| <= |t|
    decreases |t|
  {
    if AtEnd(t) then Some(Literal("", t))
    else
      match NextPiece(t, vars)
      case None => None
      case Some(p) => Prefixed(p.bytes, Unescape(t[p.width..], p.vars))
  }

  function Prefixed(bytes: string, after: Option<Literal>): Option<Literal> {
    match after
    case Some(r) => Some(Literal(bytes + r.text, r.rest))
    case None => None
  }

  lemma SuffixOfSuffix(t: string, w: nat, rest: string)
    requires w <= |t| && |rest| <= |t[w..]| && t[w..][|t[w..]| - |rest|..] == rest
    ensures t[|t| - |rest|..] == rest
  {
  }

  lemma UnescapeNext(t: string, vars: Vars)
    requires Unescape(t, vars).Some? && !AtEnd(t)
    ensures NextPiece(t, vars).Some?
    ensures var p := NextPiece(t, vars).value;
            var after := Unescape(t[p.width..], p.vars);
            after.Some? && Unescape(t, vars).value == Literal(p.bytes + after.value.text, after.value.rest)
  {
  }

  /** The text stored is a C string, and the pass stops at a later place of the same
      text, on a quote or at the terminator. */
  lemma {:induction false} UnescapeResult(t: string, vars: Vars)
    requires Unescape(t, vars).Some?
    ensures var r := Unescape(t, vars).value; NulFree(r.text) && AtEnd(r.rest) && t[|t| - |r.rest|..] == r.rest
    decreases |t|
  {
    if AtEnd(t) {
      assert Unescape(t, vars).value == Literal("", t);
    } else {
      UnescapeNext(t, vars);
      var p := NextPiece(t, vars).value;
      var r := Unescape(t[p.width..], p.vars).value;
      UnescapeResult(t[p.width..], p.vars);
      NulFreeJoin(p.bytes, r.text);
      SuffixOfSuffix(t, p.width, r.rest);
    }
  }

  lemma NulFreeJoin(a: string, b: string)
    requires NulFree(a) && NulFree(b)
    ensures NulFree(a + b)
  {
  }

  // ---------- well-formed escapes ----------

  /** A `\u` and four characters after it that the first pass counts one by one. */
  predicate IsUnicodeEscape(t: string) {
    && |t| >= 6 && t[0] == '\\' && t[1] == 'u'
    && forall k :: 2 <= k < 6 ==> t[k] != '"' && t[k] != '\\' && t[k] != '\0'
  }

  function CharWidth(t: string): (w: nat)
    requires !AtEnd(t)
    ensures w <= |t|
  {
    if t[0] != '\\' then 1
    else if |t| < 2 || t[1] == '\0' then 0
    else if t[1] != 'u' then 2
    else if IsUnicodeEscape(t) then 6
    else 0
  }

  /** Every escape before the end of the literal is well formed. */
  predicate EscapesOk(t: string)
    decreases |t|
  {
    AtEnd(t) || (CharWidth(t) > 0 && EscapesOk(t[CharWidth(t)..]))
  }

  /** The first pass gets past `k` plain characters by counting them. */
  lemma {:induction false} MeasurePlain(t: string, k: nat)
    requires k <= |t| && forall j :: 0 <= j < k ==> t[j] != '"' && t[j] != '\\' && t[j] != '\0'
    ensures Measure(t) == (match Measure(t[k..])
                           case Some(s) => Some(Scan(k + s.len, s.rest))
                           case None => None)
  {
    if k == 0 {
      assert t[0..] == t;
    } else {
      MeasurePlain(t[1..], k - 1);
      assert t[1..][k - 1..] == t[k..];
    }
  }

  /** A `\u` escape counts five in the first pass. */
  lemma MeasureUnicode(t: string)
    requires IsUnicodeEscape(t)
    ensures Measure(t) == (match Measure(t[6..])
                           case Some(s) => Some(Scan(5 + s.len, s.rest))
                           case None => None)
  {
    MeasurePlain(t[2..], 4);
    assert t[2..][4..] == t[6..];
  }

  /** Both variables have values, or a number follows wherever there is a `\u`. */
  predicate Scans(t: string, vars: Vars) {
    || (vars.uc.Some? && vars.uc2.Some?)
    || forall k :: 0 <= k <= |t| - 2 && t[k] == '\\' && t[k + 1] == 'u' ==> Scanned(t[k + 2..]).Some?
  }

  lemma ScansLater(t: string, vars: Vars, w: nat, later: Vars)
    requires Scans(t, vars) && w <= |t| && (vars.uc.Some? ==> later.uc.Some?) && (vars.uc2.Some? ==> later.uc2.Some?)
    ensures Scans(t[w..], later)
  {
    var u := t[w..];
    forall k | 0 <= k <= |u| - 2 && u[k] == '\\' && u[k + 1] == 'u' && !(vars.uc.Some? && vars.uc2.Some?)
      ensures Scanned(u[k + 2..]).Some?
    {
      assert u[k + 2..] == t[w + k + 2..] && t[w + k] == u[k] && t[w + k + 1] == u[k + 1];
    }
  }

  /** Well-formed escapes leave each other alone. */
  lemma PieceIsOk(t: string, vars: Vars)
    requires EscapesOk(t) && !AtEnd(t) && NextPiece(t, vars).Some?
    ensures var p := NextPiece(t, vars).value;
            && EscapesOk(t[p.width..])
            && (p.width == 12 ==> IsUnicodeEscape(t) && IsUnicodeEscape(t[6..]))
            && (p.width == 6 ==> IsUnicodeEscape(t))
  {
    if IsUnicodeEscape(t) && |t| >= 8 && t[6] == '\\' && t[7] == 'u' {
      var pair := t[6..];
      assert pair[0] == t[6] && pair[1] == t[7];
      assert IsUnicodeEscape(pair);
      assert pair[6..] == t[12..];
    }
  }

  /** Where numbers follow each turn of the second pass has a value to store. */
  lemma PieceIsThere(t: string, vars: Vars)
    requires EscapesOk(t) && !AtEnd(t) && Scans(t, vars)
    ensures NextPiece(t, vars).Some? && Scans(t[NextPiece(t, vars).value.width..], NextPiece(t, vars).value.vars)
  {
    if IsUnicodeEscape(t) && |t| >= 8 && t[6] == '\\' && t[7] == 'u' {
      var pair := t[6..];
      assert pair[0] == t[6] && pair[1] == t[7];
      assert IsUnicodeEscape(pair);
      assert forall k :: 2 <= k < 6 ==> pair[k] == t[k + 6];
    }
    ScansLater(t, vars, NextPiece(t, vars).value.width, NextPiece(t, vars).value.vars);
  }

  /** One turn of the second pass stores no more than the first pass counted for it. */
  lemma MeasurePiece(t: string, vars: Vars)
    requires EscapesOk(t) && !AtEnd(t) && NextPiece(t, vars).Some?
    requires Measure(t[NextPiece(t, vars).value.width..]).Some?
    ensures var p := NextPiece(t, vars).value;
            var after := Measure(t[p.width..]).value;
            Measure(t).Some? && |p.bytes| + after.len <= Measure(t).value.len && Measure(t).value.rest == after.rest
  {
    PieceIsOk(t, vars);
    var p := NextPiece(t, vars).value;
    if p.width >= 6 {
      MeasureUnicode(t);
      if p.width == 12 {
        MeasureUnicode(t[6..]);
        assert t[6..][6..] == t[12..];
      }
    }
  }

  /** On well-formed escapes the first pass stops inside the text. */
  lemma {:induction false} MeasureStops(t: string)
    requires EscapesOk(t)
    ensures Measure(t).Some?
    decreases |t|
  {
    if !AtEnd(t) {
      MeasureStops(t[CharWidth(t)..]);
      if CharWidth(t) == 6 {
        MeasureUnicode(t);
      }
    }
  }

  /** On well-formed escapes the two passes stop at the same place, and the second fits the
      buffer sized by the first, if it uses no variable without a value. */
  lemma {:induction false} PassesAgree(t: string, vars: Vars)
    requires EscapesOk(t)
    ensures Measure(t).Some? && (Scans(t, vars) ==> Unescape(t, vars).Some?)
    ensures Unescape(t, vars).Some? ==>
              var r, s := Unescape(t, vars).value, Measure(t).value;
              r.rest == s.rest && |r.text| <= s.len
    decreases |t|
  {
    MeasureStops(t);
    if !AtEnd(t) {
      if Scans(t, vars) {
        PieceIsThere(t, vars);
      }
      if NextPiece(t, vars).Some? {
        var p := NextPiece(t, vars).value;
        PieceIsOk(t, vars);
        PassesAgree(t[p.width..], p.vars);
        MeasurePiece(t, vars);
      }
    }
  }

  /** The literal that starts just after an opening quote; none if a pass steps over the
      terminator, a variable without a value is used, or the text does not fit the measured
      buffer. */
  function LiteralAt(t: string): (r: Option<Literal>) {
    match (Measure(t), Unescape(t, UNSET))
    case (Some(s), Some(r)) => if |r.text| <= s.len then Some(r) else None
    case _ => None
  }

  function StringAt(t: string): (r: Parsed<string>)
    ensures r.Got? ==> |r.rest| < |t|
  {
    if At(t, 0) != '"' then Rejected
    else
      match LiteralAt(t[1..])
      case None => Undefined
      case Some(r) => Got(r.text, if At(r.rest, 0) == '"' then r.rest[1..] else r.rest)
  }

  /** A literal with well-formed escapes is what the second pass makes of it. */
  lemma LiteralIs(t: string, text: string, more: string)
    requires EscapesOk(t) && Unescape(t, UNSET) == Some(Literal(text, "\"" + more))
    ensures StringAt("\"" + t) == Got(text, more)
  {
    PassesAgree(t, UNSET);
    assert ("\"" + t)[1..] == t && ("\"" + more)[1..] == more;
  }

  lemma AfterEscape(t: string, bytes: string, vars: Vars, r: Literal)
    requires IsUnicodeEscape(t) && NextPiece(t, UNSET) == Some(Piece(bytes, 6, vars))
    requires EscapesOk(t[6..]) && Unescape(t[6..], vars) == Some(r)
    ensures EscapesOk(t) && Unescape(t, UNSET) == Some(Literal(bytes + r.text, r.rest))
  {
  }

  /** A `\u` with two digits is read, with the two characters after them skipped. */
  lemma ShortNumberIsRead()
    ensures StringAt("\"" + "\\u12zz\"") == Got("\U{12}", "")
  {
    var t := "\\u12zz\"";
    ScansTwo(t[2..]);
    assert t[6..] == "\"" + "" && "\U{12}" + "" == "\U{12}";
    AfterEscape(t, "\U{12}", Vars(Some(0x12), None), Literal("", "\"" + ""));
    LiteralIs(t, "\U{12}", "");
  }

  lemma ScansTwo(u: string)
    requires u == "12zz\""
    ensures Scanned(u) == Some(0x12)
  {
    assert u[1..] == "2zz\"" && u[1..][1..] == "zz\"";
    assert HexRun(u, 4, 0) == HexRun(u[1..], 3, 1) == HexRun(u[1..][1..], 2, 0x12) == 0x12;
  }

  /** A `\u` without a number stands for what an earlier one has left. */
  lemma NumberIsLeft()
    ensures StringAt("\"" + "\\u0041\\uzzzz\"") == Got("AA", "")
  {
    var t := "\\u0041\\uzzzz\"";
    FirstLetter(t);
    LetterAgain(t[6..]);
    AfterEscape(t, "A", Vars(Some(0x41), None), Literal("A", "\"" + ""));
    assert "A" + "A" == "AA";
    LiteralIs(t, "AA", "");
  }

  lemma FirstLetter(t: string)
    requires t == "\\u0041\\uzzzz\""
    ensures IsUnicodeEscape(t) && NextPiece(t, UNSET) == Some(Piece("A", 6, Vars(Some(0x41), None)))
    ensures t[6..] == "\\uzzzz\""
  {
    FourDigits(t[2..]);
    var digits := t[2..][..4];
    assert digits == "0041" && Hex4(digits) == 0x41;
  }

  lemma LetterAgain(t: string)
    requires t == "\\uzzzz\""
    ensures Unescape(t, Vars(Some(0x41), None)) == Some(Literal("A", "\"" + "")) && EscapesOk(t)
  {
    var vars := Vars(Some(0x41), None);
    assert t[2..] == "zzzz\"" && Scanned(t[2..]) == None && t[6..] == "\"" + "";
    assert NextPiece(t, vars) == Some(Piece("A", 6, vars));
    assert Unescape(t[6..], vars) == Some(Literal("", "\"" + "")) && EscapesOk(t[6..]);
    assert "A" + "" == "A";
    assert IsUnicodeEscape(t);
  }

  /** A quote among the four characters: the first pass stops there and counts two
      characters, the second steps over it and stores four. */
  lemma StoresMoreThanMeasured()
    ensures var t := "\\u0\"aaaaaa\"";
            && Measure(t) == Some(Scan(2, "\"aaaaaa\"")) && Unescape(t, UNSET) == Some(Literal("aaaa", "\""))
            && StringAt("\"" + t) == Undefined
  {
    var t := "\\u0\"aaaaaa\"";
    CountsTwo(t);
    StoresFour(t);
    assert ("\"" + t)[1..] == t;
  }

  lemma CountsTwo(t: string)
    requires t == "\\u0\"aaaaaa\""
    ensures Measure(t) == Some(Scan(2, "\"aaaaaa\""))
  {
    assert t[2..] == "0\"aaaaaa\"" && t[2..][1..] == "\"aaaaaa\"";
    assert Measure(t[2..][1..]) == Some(Scan(0, t[2..][1..]));
  }

  lemma StoresFour(t: string)
    requires t == "\\u0\"aaaaaa\""
    ensures Unescape(t, UNSET) == Some(Literal("aaaa", "\""))
  {
    var vars := Vars(Some(0), None);
    QuoteIsSkipped(t);
    PlainTail(t[6..], vars);
    NothingStored(t, vars, t[6..]);
  }

  lemma NothingStored(t: string, vars: Vars, rest: string)
    requires !AtEnd(t) && NextPiece(t, UNSET) == Some(Piece("", 6, vars)) && t[6..] == rest
    ensures Unescape(t, UNSET) == Unescape(rest, vars)
  {
    if Unescape(rest, vars).Some? {
      assert "" + Unescape(rest, vars).value.text == Unescape(rest, vars).value.text;
    }
  }

  lemma QuoteIsSkipped(t: string)
    requires t == "\\u0\"aaaaaa\""
    ensures NextPiece(t, UNSET) == Some(Piece("", 6, Vars(Some(0), None))) && t[6..] == "aaaa\""
  {
    var u := t[2..];
    assert u[1..][0] == '"' && HexRun(u, 4, 0) == HexRun(u[1..], 3, 0) == 0 && Scanned(u) == Some(0);
  }

  lemma PlainTail(t: string, vars: Vars)
    requires t == "aaaa\""
    ensures Unescape(t, vars) == Some(Literal("aaaa", "\""))
  {
    OnePlain(t[4..], "", vars);
    OnePlain(t[3..], "a", vars);
    OnePlain(t[2..], "aa", vars);
    OnePlain(t[1..], "aaa", vars);
    OnePlain(t, "aaaa", vars);
  }

  lemma OnePlain(t: string, text: string, vars: Vars)
    requires t == text + "\"" && forall k :: 0 <= k < |text| ==> t[k] == 'a'
    requires |text| > 0 ==> Unescape(t[1..], vars) == Some(Literal(text[1..], "\""))
    ensures Unescape(t, vars) == Some(Literal(text, "\""))
  {
    if |text| > 0 {
      assert NextPiece(t, vars) == Some(Piece([t[0]], 1, vars)) && [t[0]] + text[1..] == text;
    } else {
      assert t == "\"" && AtEnd(t);
    }
  }

  // ---------- parse_string: the loops ----------

  /** Stores `code` backwards from the end of its form, one continuation byte at a time. */
  method StoreUtf8(out: array<char>, at: nat, code: CodePoint) returns (next: nat, uc: CodePoint)
    requires at + EncodedLength(code) <= out.Length
    modifies out
    ensures next == at + EncodedLength(code) && uc == ShiftedOut(code)
    ensures out[..next] == old(out[..at]) + EncodeUtf8(code)
    ensures out[next..] == old(out[at + EncodedLength(code)..])
  {
    var n: nat := code;
    Shifts(code);
    var len := if n < 0x80 then 1 else if n < 0x800 then 2 else if n < 0x1_0000 then 3 else 4;
    var ptr2 := at + len;
    if len >= 4 {
      ptr2 := ptr2 - 1;
      out[ptr2], n := Continuation(n), n / 0x40;
    }
    if len >= 3 {
      ptr2 := ptr2 - 1;
      out[ptr2], n := Continuation(n), n / 0x40;
    }
    if len >= 2 {
      ptr2 := ptr2 - 1;
      out[ptr2], n := Continuation(n), n / 0x40;
    }
    ptr2 := ptr2 - 1;
    var mark := if len == 1 then 0 else if len == 2 then 0xC0 else if len == 3 then 0xE0 else 0xF0;
    out[ptr2] := if n > 0xFF then 0xFF as char else (mark + n) as char;
    next, uc := ptr2 + len, n;
  }

  /** The `\u` case of the second pass, entered with `ptr` on the `u`; it leaves `ptr`
      on the last character used, and `uc` and `uc2` for the next one. */
  method StoreUnicode(str: string, at: nat, out: array<char>, dst: nat, vars: Vars)
      returns (ptr: nat, ptr2: nat, left: Vars)
    requires 0 < at < |str| && str[at - 1] == '\\' && str[at] == 'u' && UnicodePiece(str[at - 1..], vars).Some?
    requires dst + |UnicodePiece(str[at - 1..], vars).value.bytes| <= out.Length
    modifies out
    ensures var p := UnicodePiece(str[at - 1..], vars).value;
            ptr + 1 == at - 1 + p.width && ptr2 == dst + |p.bytes| && left == p.vars
            && out[..ptr2] == old(out[..dst]) + p.bytes
  {
    ghost var t := str[at - 1..];
    assert t[2..] == str[at + 1..];
    left := vars.(uc := Rescanned(str[at + 1..], vars.uc));
    var uc := left.uc.value;
    ptr, ptr2 := at + 4, dst;
    if (0xDC00 <= uc <= 0xDFFF) || uc == 0 {
      return;
    }
    if 0xD800 <= uc <= 0xDBFF {
      assert |t| > 6 ==> t[6] == str[ptr + 1];
      assert |t| > 7 ==> t[7] == str[ptr + 2];
      if At(str, ptr + 1) != '\\' || At(str, ptr + 2) != 'u' {
        return;
      }
      assert t[8..] == str[ptr + 3..];
      left := left.(uc2 := Rescanned2(str[ptr + 3..], vars.uc2));
      var uc2 := left.uc2.value;
      ptr := ptr + 6;
      if uc2 < 0xDC00 || uc2 > 0xDFFF {
        return;
      }
      uc := Combine(uc, uc2);
    }
    ptr2, uc := StoreUtf8(out, ptr2, uc);
    left := left.(uc := Some(uc));
  }

  /** The first loop of `parse_string`, from just after the opening quote. */
  method MeasureLoop(str: string, start: nat) returns (len: nat)
    requires start <= |str| && Measure(str[start..]).Some?
    ensures len == Measure(str[start..]).value.len
  {
    var ptr := start;
    len := 0;
    while At(str, ptr) != '"' && At(str, ptr) != '\0'
      invariant start <= ptr <= |str|
      invariant Measure(str[ptr..]).Some? && Measure(str[start..]).value.len == len + Measure(str[ptr..]).value.len
      decreases |str| - ptr
    {
      ghost var t := str[ptr..];
      assert t[0] == str[ptr] && t[1..] == str[ptr + 1..];
      assert str[ptr] == '\\' ==> t[2..] == str[ptr + 2..];
      len := len + 1;
      ptr := ptr + 1;
      if str[ptr - 1] == '\\' {
        ptr := ptr + 1;
      }
    }
  }

  /** One turn of the second loop. */
  method StorePiece(str: string, start: nat, out: array<char>, dst: nat, vars: Vars)
      returns (ptr: nat, ptr2: nat, left: Vars)
    requires start <= |str| && !AtEnd(str[start..]) && NextPiece(str[start..], vars).Some?
    requires dst + |NextPiece(str[start..], vars).value.bytes| <= out.Length
    modifies out
    ensures var p := NextPiece(str[start..], vars).value;
            ptr == start + p.width && ptr2 == dst + |p.bytes| && left == p.vars
            && out[..ptr2] == old(out[..dst]) + p.bytes
  {
    ghost var t := str[start..];
    assert t[0] == str[start];
    ptr, ptr2, left := start, dst, vars;
    if str[ptr] != '\\' {
      out[ptr2] := str[ptr];
      ptr2 := ptr2 + 1;
    } else {
      ptr := ptr + 1;
      assert t[1] == str[ptr];
      if At(str, ptr) == 'u' {
        ptr, ptr2, left := StoreUnicode(str, ptr, out, ptr2, vars);
      } else {
        out[ptr2] := SimpleEscape(At(str, ptr));
        ptr2 := ptr2 + 1;
      }
    }
    ptr := ptr + 1;
  }

  /** One turn of the second pass, on the text from index `i` on, with `before` stored. */
  lemma StoreStep(str: string, i: nat, vars: Vars, before: string, body: Literal)
    requires i <= |str| && !AtEnd(str[i..]) && Pending(str[i..], vars, before, body)
    ensures NextPiece(str[i..], vars).Some?
    ensures var p := NextPiece(str[i..], vars).value;
            i + p.width <= |str| && |before| + |p.bytes| <= |body.text|
            && Pending(str[i + p.width..], p.vars, before + p.bytes, body)
  {
    var t := str[i..];
    UnescapeNext(t, vars);
    var p := NextPiece(t, vars).value;
    assert t[p.width..] == str[i + p.width..];
    var r := Unescape(t[p.width..], p.vars).value;
    assert before + (p.bytes + r.text) == (before + p.bytes) + r.text;
  }

  /** `stored` and what the rest of the literal stands for make up `body`. */
  predicate Pending(t: string, vars: Vars, stored: string, body: Literal) {
    match Unescape(t, vars)
    case Some(r) => stored + r.text == body.text && r.rest == body.rest
    case None => false
  }

  method StoreNext(str: string, start: nat, out: array<char>, dst: nat, vars: Vars, ghost body: Literal)
      returns (ptr: nat, ptr2: nat, left: Vars)
    requires start < |str| && !AtEnd(str[start..]) && |body.text| < out.Length
    requires dst <= |body.text| && Pending(str[start..], vars, out[..dst], body)
    modifies out
    ensures start < ptr <= |str| && ptr2 <= |body.text| && Pending(str[ptr..], left, out[..ptr2], body)
  {
    StoreStep(str, start, vars, out[..dst], body);
    ptr, ptr2, left := StorePiece(str, start, out, dst, vars);
  }

  /** The second loop: a buffer that has room for the text is never overrun. */
  method StoreLoop(str: string, start: nat, out: array<char>) returns (ptr: nat, ptr2: nat)
    requires start <= |str| && Unescape(str[start..], UNSET).Some?
    requires |Unescape(str[start..], UNSET).value.text| < out.Length
    modifies out
    ensures start <= ptr <= |str| && ptr2 < out.Length
    ensures Unescape(str[start..], UNSET) == Some(Literal(out[..ptr2], str[ptr..]))
  {
    ptr, ptr2 := start, 0;
    var vars := UNSET;
    ghost var body := Unescape(str[start..], UNSET).value;
    assert out[..0] + body.text == body.text;
    while At(str, ptr) != '"' && At(str, ptr) != '\0'
      invariant start <= ptr <= |str| && ptr2 <= |body.text| && Pending(str[ptr..], vars, out[..ptr2], body)
      decreases |str| - ptr
    {
      ptr, ptr2, vars := StoreNext(str, ptr, out, ptr2, vars, body);
    }
    EmptyAtEnd(str, ptr, vars);
    assert out[..ptr2] + "" == out[..ptr2];
  }

  lemma EmptyAtEnd(str: string, i: nat, vars: Vars)
    requires i <= |str| && (At(str, i) == '"' || At(str, i) == '\0')
    ensures Unescape(str[i..], vars) == Some(Literal("", str[i..]))
  {
  }

  lemma LiteralEnds(str: string, start: nat, r: Literal, ptr: nat, end: nat)
    requires start < |str| && str[start] == '"' && LiteralAt(str[start + 1..]) == Some(r)
    requires ptr <= |str| && r.rest == str[ptr..]
    requires end == if At(str, ptr) == '"' then ptr + 1 else ptr
    ensures end <= |str| && StringAt(str[start..]) == Got(r.text, str[end..])
  {
    assert str[start..][1..] == str[start + 1..];
    assert ptr < |str| ==> r.rest[0] == str[ptr] && r.rest[1..] == str[ptr + 1..];
  }

  method ParseString(str: string, start: nat) returns (value: Option<string>, end: nat)
    requires start <= |str| && StringAt(str[start..]) != Undefined
    ensures Reached(StringAt(str[start..]), str, start, value, end)
  {
    if At(str, start) != '"' {
      return None, 0;
    }
    assert str[start..][0] == str[start] && str[start..][1..] == str[start + 1..];
    var len := MeasureLoop(str, start + 1);
    var out := new char[len + 1];
    var ptr, ptr2 := StoreLoop(str, start + 1, out);
    out[ptr2] := '\0';
    value, end := Some(out[..ptr2]), ptr;
    if At(str, ptr) == '"' {
      end := ptr + 1;
    }
    LiteralEnds(str, start, Literal(value.value, str[ptr..]), ptr, end);
  }

  // ---------- print_string_ptr: what it computes ----------

  /** The characters that get a two-character escape. */
  predicate HasShortEscape(c: char) {
    c == '"' || c == '\\' || c == '\U{08}' || c == '\U{0C}' || c == '\n' || c == '\r' || c == '\t'
  }

  function ShortEscape(c: char): char {
    if c == '\U{08}' then 'b'
    else if c == '\U{0C}' then 'f'
    else if c == '\n' then 'n'
    else if c == '\r' then 'r'
    else if c == '\t' then 't'
    else c
  }

  function EscapeChar(c: char): (e: string)
    ensures c != '\0' ==> NulFree(e)
  {
    if HasShortEscape(c) then ['\\', ShortEscape(c)]
    else if c as int > 31 then [c]
    else ['\\', 'u', '0', '0', HexDigit(c as int / 16), HexDigit(c as int % 16)]
  }

  function EscapeText(t: string): (e: string)
    ensures NulFree(t) ==> NulFree(e)
  {
    if |t| == 0 then "" else EscapeChar(t[0]) + EscapeText(t[1..])
  }

  function PrintString(t: string): (s: string)
    ensures NulFree(t) ==> NulFree(s)
    ensures |s| >= 2 && s[0] == '"'
  {
    "\"" + EscapeText(t) + "\""
  }

  lemma {:induction false} EscapeSplits(t: string, rest: string)
    requires |t| > 0
    ensures EscapeText(t) + "\"" + rest == EscapeChar(t[0]) + (EscapeText(t[1..]) + "\"" + rest)
  {
  }

  /** Unescaping undoes escaping, and stops at the closing quote. */
  lemma {:induction false} UnescapeEscaped(t: string, rest: string, vars: Vars)
    requires NulFree(t)
    ensures var e := EscapeText(t) + "\"" + rest;
            EscapesOk(e) && Unescape(e, vars) == Some(Literal(t, "\"" + rest))
  {
    if |t| == 0 {
      assert EscapeText(t) + "\"" + rest == "\"" + rest;
    } else {
      var tail := EscapeText(t[1..]) + "\"" + rest;
      var left := EscapedCharPiece(t[0], tail, vars);
      UnescapeEscaped(t[1..], rest, left);
      EscapeSplits(t, rest);
      assert [t[0]] + t[1..] == t;
    }
  }

  lemma EscapedCharPiece(c: char, tail: string, vars: Vars) returns (left: Vars)
    requires c != '\0'
    ensures var e := EscapeChar(c) + tail;
            && !AtEnd(e) && CharWidth(e) == |EscapeChar(c)| && e[|EscapeChar(c)|..] == tail
            && NextPiece(e, vars) == Some(Piece([c], |EscapeChar(c)|, left))
  {
    var e := EscapeChar(c) + tail;
    left := vars;
    if |EscapeChar(c)| == 6 {
      assert e[2] == '0' && e[3] == '0' && e[4] == HexDigit(c as int / 16) && e[5] == HexDigit(c as int % 16);
      FourDigits(e[2..]);
      assert e[2..][..4] == e[2..6] && Hex4(e[2..6]) == c as int;
      assert IsUnicodeEscape(e);
      left := vars.(uc := Some(c as int));
    }
  }

  /** A printed string, followed by anything, parses to the string it prints. */
  lemma StringRoundTrip(t: string, rest: string)
    requires NulFree(t)
    ensures StringAt(PrintString(t) + rest) == Got(t, rest)
  {
    var e := EscapeText(t) + "\"" + rest;
    assert PrintString(t) + rest == "\"" + e;
    UnescapeEscaped(t, rest, UNSET);
    LiteralIs(e, t, rest);
  }

  // ---------- print_string_ptr: the loops ----------

  /** The buffer `a` holds the C string `t`. */
  predicate Holds(a: array<char>, t: string)
    reads a
  {
    |t| < a.Length && a[..|t|] == t && a[|t|] == '\0' && NulFree(t)
  }

  /** First pass: the length the escaped text will have. */
  method EscapedLength(str: string) returns (len: nat)
    requires NulFree(str)
    ensures len == |EscapeText(str)|
  {
    var i := 0;
    len := 0;
    assert str[0..] == str;
    while i < |str|
      invariant 0 <= i <= |str|
      invariant len + |EscapeText(str[i..])| == |EscapeText(str)|
    {
      var token := str[i];
      assert str[i..][1..] == str[i + 1..];
      len := len + 1;
      if HasShortEscape(token) {
        len := len + 1;
      } else if token as int < 32 {
        len := len + 5;
      }
      i := i + 1;
    }
  }

  /** Stores the escape of one character at `dst`. */
  method StoreEscape(token: char, out: array<char>, dst: nat) returns (ptr2: nat)
    requires token != '\0' && dst + |EscapeChar(token)| <= out.Length
    modifies out
    ensures ptr2 == dst + |EscapeChar(token)| && out[..ptr2] == old(out[..dst]) + EscapeChar(token)
  {
    ptr2 := dst;
    if token as int > 31 && token != '"' && token != '\\' {
      out[ptr2] := token;
      ptr2 := ptr2 + 1;
    } else {
      out[ptr2] := '\\';
      ptr2 := ptr2 + 1;
      match token {
        case '\\' => out[ptr2] := '\\';
        case '"' => out[ptr2] := '"';
        case '\U{08}' => out[ptr2] := 'b';
        case '\U{0C}' => out[ptr2] := 'f';
        case '\n' => out[ptr2] := 'n';
        case '\r' => out[ptr2] := 'r';
        case '\t' => out[ptr2] := 't';
        case _ =>
          out[ptr2], out[ptr2 + 1], out[ptr2 + 2] := 'u', '0', '0';
          out[ptr2 + 3], out[ptr2 + 4] := HexDigit(token as int / 16), HexDigit(token as int % 16);
          ptr2 := ptr2 + 4;
      }
      ptr2 := ptr2 + 1;
    }
  }

  /** Writes exactly the `len + 3` characters it allocates. */
  method PrintStringPtr(str: string) returns (out: array<char>)
    requires NulFree(str)
    ensures fresh(out) && Holds(out, PrintString(str))
    ensures out.Length == |PrintString(str)| + 1
  {
    var len := EscapedLength(str);
    out := new char[len + 3];
    var ptr2, i := 0, 0;
    out[ptr2] := '"';
    ptr2 := ptr2 + 1;
    assert out[..1] == "\"" && str[0..] == str;
    while i < |str|
      invariant 0 <= i <= |str|
      invariant 0 <= ptr2 && ptr2 + |EscapeText(str[i..])| == len + 1
      invariant out[..ptr2] + EscapeText(str[i..]) == "\"" + EscapeText(str)
    {
      assert str[i..][1..] == str[i + 1..];
      assert out[..ptr2] + EscapeText(str[i..]) == (out[..ptr2] + EscapeChar(str[i])) + EscapeText(str[i + 1..]);
      ptr2 := StoreEscape(str[i], out, ptr2);
      i := i + 1;
    }
    out[ptr2], out[ptr2 + 1] := '"', '\0';
  }
}
