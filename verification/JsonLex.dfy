/**
 JSON tokens: how the streaming lexer reads one token from the bytes at hand,
 and the law it is built on, that a token accepted or rejected before the input
 is final stays accepted or rejected whatever bytes follow.
 */
module JsonLex {

  import opened Octets

  /** A string value is the list of its UTF-16 code units. */
  type Units = seq<nat>

  /** A float keeps the bytes of its token; conversion to a double is not part of this model. */
  datatype Value =
    | Null
    | Bool(b: bool)
    | Int(i: int)
    | Float(text: Bytes)
    | Str(units: Units)
    | Arr(elems: seq<Value>)
    | Obj(members: seq<Member>)

  datatype Member = Member(key: Units, value: Value)

  datatype Token =
    | End | LeftBrace | RightBrace | LeftBracket | RightBracket | Colon | Comma
    | Scalar(value: Value)

  /** No key stands twice. */
  predicate DistinctKeys(members: seq<Member>) {
    forall i, j :: 0 <= i < j < |members| ==> members[i].key != members[j].key
  }

  /** What a scanner makes of the bytes at hand: a result and the number of bytes used, or not enough, or a fault. */
  datatype Scan<T> = Ok(value: T, used: nat) | NeedMore | Error

  const QUOTE: int := 0x22
  const BACKSLASH: int := 0x5C
  const SLASH: int := 0x2F
  const MINUS: int := 0x2D
  const PLUS: int := 0x2B
  const DOT: int := 0x2E
  const COMMA: int := 0x2C
  const COLON: int := 0x3A
  const OPEN_BRACKET: int := 0x5B
  const CLOSE_BRACKET: int := 0x5D
  const OPEN_BRACE: int := 0x7B
  const CLOSE_BRACE: int := 0x7D
  const ZERO: int := 0x30
  const NINE: int := 0x39
  const LOWER_B: int := 0x62
  const LOWER_E: int := 0x65
  const LOWER_F: int := 0x66
  const LOWER_N: int := 0x6E
  const LOWER_R: int := 0x72
  const LOWER_T: int := 0x74
  const LOWER_U: int := 0x75
  const UPPER_E: int := 0x45

  predicate IsWs(b: int) { b == 0x20 || b == 0x09 || b == 0x0A || b == 0x0D }

  predicate IsDigit(b: int) { ZERO <= b <= NINE }

  predicate IsDelimiter(b: int) { IsWs(b) || b == COMMA || b == CLOSE_BRACKET || b == CLOSE_BRACE || b == COLON }

  /** Too few bytes is a fault only when no more will come. */
  function Short<T>(final: bool): Scan<T> { if final then Error else NeedMore }

  // ---------------------------------------------------------------- strings

  function HexValue(b: int): int {
    if IsDigit(b) then b - ZERO
    else if 0x61 <= b <= 0x66 then b - 0x61 + 10
    else if 0x41 <= b <= 0x46 then b - 0x41 + 10
    else -1
  }

  /** Four hexadecimal digits, or -1. */
  function Hex4(s: Bytes): int
    requires |s| >= 4
  {
    var a, b, c, d := HexValue(s[0]), HexValue(s[1]), HexValue(s[2]), HexValue(s[3]);
    if a < 0 || b < 0 || c < 0 || d < 0 then -1 else ((a * 16 + b) * 16 + c) * 16 + d
  }

  predicate IsHigh(code: int) { 0xD800 <= code <= 0xDBFF }

  predicate IsLow(code: int) { 0xDC00 <= code <= 0xDFFF }

  /** append_codepoint: one code unit, or a surrogate pair. */
  function UnitsOf(code: nat): Units {
    if code <= 0xFFFF then [code]
    else [0xD800 + (code - 0x10000) / 0x400, 0xDC00 + (code - 0x10000) % 0x400]
  }

  predicate IsContinuation(b: int) { 0x80 <= b <= 0xBF }

  /** The UTF-8 lead byte: how many bytes follow, -1 if none may start with it. */
  function Needed(b: int): int {
    if b < 0x80 then 0
    else if 0xC0 <= b < 0xE0 then 1
    else if 0xE0 <= b < 0xF0 then 2
    else if 0xF0 <= b < 0xF8 then 3
    else -1
  }

  /** The fixed bits of a lead byte that `n` bytes follow. */
  function Marker(n: int): int { if n == 1 then 0xC0 else if n == 2 then 0xE0 else 0xF0 }

  /** The six bits a continuation byte carries. */
  function Payload(b: int): int { b - 0x80 }

  /** The code point spelled by the first `1 + Needed(s[0])` bytes, or -1 if they are not UTF-8. */
  function Spelled(s: Bytes): int
    requires s != [] && 0 <= Needed(s[0]) < |s|
  {
    var n := Needed(s[0]);
    var lead: int := s[0];
    if n == 0 then lead
    else if !IsContinuation(s[1]) then -1
    else
      var code1: int := (lead - Marker(n)) * 64 + Payload(s[1]);
      if n == 1 then if code1 < 0x80 then -1 else code1
      else if !IsContinuation(s[2]) then -1
      else
        var code2: int := code1 * 64 + Payload(s[2]);
        if n == 2 then if code2 < 0x800 || IsHigh(code2) || IsLow(code2) then -1 else code2
        else if !IsContinuation(s[3]) then -1
        else
          var code3: int := code2 * 64 + Payload(s[3]);
          if code3 < 0x10000 || code3 > 0x10FFFF then -1 else code3
  }

  /** decode_utf8_codepoint. */
  function DecodePoint(s: Bytes, final: bool): (r: Scan<nat>)
    ensures r.Ok? ==> 1 <= r.used <= |s|
  {
    if s == [] then Short(final)
    else if Needed(s[0]) < 0 then Error
    else if Needed(s[0]) >= |s| then Short(final)
    else
      var code := Spelled(s);
      if code < 0 then Error else Ok(code, 1 + Needed(s[0]))
  }

  /** The character a one-letter escape stands for, or -1. */
  function ShortEscape(b: int): int {
    if b == QUOTE || b == BACKSLASH || b == SLASH then b
    else if b == LOWER_B then 0x08
    else if b == LOWER_F then 0x0C
    else if b == LOWER_N then 0x0A
    else if b == LOWER_R then 0x0D
    else if b == LOWER_T then 0x09
    else -1
  }

  /** The code point of a \u escape, whose digits start at `s[2]`. */
  function UnicodeEscape(s: Bytes, final: bool): (r: Scan<Units>)
    requires |s| >= 2
    ensures r.Ok? ==> 1 <= r.used <= |s|
  {
    if |s| < 6 then Short(final)
    else
      var code := Hex4(s[2..6]);
      if code < 0 then Error
      else if IsHigh(code) then
        if |s| < 12 then Short(final)
        else if s[6] != BACKSLASH || s[7] != LOWER_U then Error
        else
          var low := Hex4(s[8..12]);
          if !IsLow(low) then Error
          else Ok(UnitsOf(0x10000 + (code - 0xD800) * 0x400 + (low - 0xDC00)), 12)
      else if IsLow(code) then Error
      else Ok(UnitsOf(code), 6)
  }

  /** One element of a string body: the code units it stands for; none at the closing quote. */
  function Element(s: Bytes, final: bool): (r: Scan<Units>)
    requires s != []
    ensures r.Ok? ==> 1 <= r.used <= |s|
  {
    if s[0] == QUOTE then Ok([], 1)
    else if s[0] == BACKSLASH then
      if |s| < 2 then Short(final)
      else if s[1] == LOWER_U then UnicodeEscape(s, final)
      else if ShortEscape(s[1]) < 0 then Error
      else Ok([ShortEscape(s[1])], 2)
    else if s[0] < 0x20 then Error
    else
      match DecodePoint(s, final)
      case Ok(code, used) => Ok(UnitsOf(code), used)
      case NeedMore => NeedMore
      case Error => Error
  }

  /** lex_string after the opening quote. */
  function StringBody(s: Bytes, final: bool): (r: Scan<Units>)
    ensures r.Ok? ==> 1 <= r.used <= |s|
    decreases |s|
  {
    if s == [] then Short(final)
    else
      match Element(s, final)
      case NeedMore => NeedMore
      case Error => Error
      case Ok(units, n) =>
        if s[0] == QUOTE then Ok([], 1)
        else
          match StringBody(s[n..], final)
          case NeedMore => NeedMore
          case Error => Error
          case Ok(rest, m) => Ok(units + rest, n + m)
  }

  // ---------------------------------------------------------------- numbers

  /** The end of the run of digits at `i`. */
  function DigitsEnd(s: Bytes, i: nat): (e: nat)
    requires i <= |s|
    ensures i <= e <= |s|
    ensures i < |s| && IsDigit(s[i]) ==> i < e
    decreases |s| - i
  {
    if i < |s| && IsDigit(s[i]) then DigitsEnd(s, i + 1) else i
  }

  /** Where a part of a number ends, if it is well formed; Cut where the bytes stop short. */
  datatype Part = At(pos: nat) | Cut | Bad

  function IntegerPart(s: Bytes, i: nat): (r: Part)
    requires i <= |s|
    ensures r.At? ==> i < r.pos <= |s|
  {
    if i == |s| then Cut
    else if s[i] == ZERO then
      if i + 1 < |s| && IsDigit(s[i + 1]) then Bad else At(i + 1)
    else if IsDigit(s[i]) then At(DigitsEnd(s, i))
    else Bad
  }

  /** One or more digits. */
  function DigitRun(s: Bytes, i: nat): (r: Part)
    requires i <= |s|
    ensures r.At? ==> i < r.pos <= |s|
  {
    if i == |s| then Cut else if !IsDigit(s[i]) then Bad else At(DigitsEnd(s, i))
  }

  function FractionPart(s: Bytes, i: nat): (r: Part)
    requires i <= |s|
    ensures r.At? ==> i <= r.pos <= |s|
  {
    if i < |s| && s[i] == DOT then DigitRun(s, i + 1) else At(i)
  }

  function ExponentPart(s: Bytes, i: nat): (r: Part)
    requires i <= |s|
    ensures r.At? ==> i <= r.pos <= |s|
  {
    if i < |s| && (s[i] == LOWER_E || s[i] == UPPER_E)
    then if i + 1 < |s| && (s[i + 1] == PLUS || s[i + 1] == MINUS) then DigitRun(s, i + 2) else DigitRun(s, i + 1)
    else At(i)
  }

  function SignLength(s: Bytes): (n: nat)
    ensures n <= |s|
  {
    if s != [] && s[0] == MINUS then 1 else 0
  }

  /** The extent of the number at the front, and where its integer part ended. */
  datatype Extent = Extent(whole: nat, total: nat) | CutShort | Malformed

  function NumberExtent(s: Bytes): (r: Extent)
    ensures r.Extent? ==> 1 <= r.whole <= r.total <= |s|
  {
    match IntegerPart(s, SignLength(s))
    case Cut => CutShort
    case Bad => Malformed
    case At(i) =>
      match FractionPart(s, i)
      case Cut => CutShort
      case Bad => Malformed
      case At(j) =>
        match ExponentPart(s, j)
        case Cut => CutShort
        case Bad => Malformed
        case At(k) => Extent(i, k)
  }

  function Decimal(s: Bytes): int {
    if s == [] then 0 else Decimal(s[..|s| - 1]) * 10 + (s[|s| - 1] - ZERO)
  }

  function IntegerOf(s: Bytes): int {
    if s != [] && s[0] == MINUS then -Decimal(s[1..]) else Decimal(s)
  }

  predicate FitsInt64(i: int) { -0x8000_0000_0000_0000 <= i <= 0x7FFF_FFFF_FFFF_FFFF }

  /**
   The value of a number token: an integer if it has neither fraction nor exponent. `inRange` says which
   float texts convert without a range error.
   */
  function NumberValue(s: Bytes, isFloat: bool, inRange: Bytes -> bool): (r: Scan<Value>)
    ensures !r.NeedMore? && (r.Ok? ==> r.used == |s|)
  {
    if isFloat then if inRange(s) then Ok(Float(s), |s|) else Error
    else if FitsInt64(IntegerOf(s)) then Ok(Int(IntegerOf(s)), |s|)
    else Error
  }

  /** lex_number: a number is complete only when a delimiter, or the end of the input, has been seen. */
  function Number(s: Bytes, final: bool, inRange: Bytes -> bool): (r: Scan<Value>)
    ensures r.Ok? ==> 1 <= r.used <= |s|
  {
    match NumberExtent(s)
    case CutShort => Short(final)
    case Malformed => Error
    case Extent(whole, total) =>
      if total == |s| && !final then NeedMore
      else if total < |s| && !IsDelimiter(s[total]) then Error
      else NumberValue(s[..total], whole < total, inRange)
  }

  // ---------------------------------------------------------------- tokens

  const TRUE_TEXT: Bytes := [0x74, 0x72, 0x75, 0x65]
  const FALSE_TEXT: Bytes := [0x66, 0x61, 0x6C, 0x73, 0x65]
  const NULL_TEXT: Bytes := [0x6E, 0x75, 0x6C, 0x6C]

  function Literal(s: Bytes, final: bool, text: Bytes, v: Value): (r: Scan<Value>)
    requires text != []
    ensures r.Ok? ==> 1 <= r.used <= |s|
  {
    if |s| < |text| then Short(final)
    else if text <= s then Ok(v, |text|)
    else Error
  }

  /** How many bytes of white space lead. */
  function WsCount(s: Bytes): (n: nat)
    ensures n <= |s|
    ensures forall i :: 0 <= i < n ==> IsWs(s[i])
    ensures n < |s| ==> !IsWs(s[n])
  {
    if s == [] || !IsWs(s[0]) then 0 else 1 + WsCount(s[1..])
  }

  function Punctuation(b: int): Token {
    if b == OPEN_BRACE then LeftBrace
    else if b == CLOSE_BRACE then RightBrace
    else if b == OPEN_BRACKET then LeftBracket
    else if b == CLOSE_BRACKET then RightBracket
    else if b == COLON then Colon
    else if b == COMMA then Comma
    else End
  }

  /** The string, literal or number at the front. */
  function ScalarAt(s: Bytes, final: bool, inRange: Bytes -> bool): (r: Scan<Value>)
    requires s != []
    ensures r.Ok? ==> 1 <= r.used <= |s|
  {
    if s[0] == QUOTE then
      match StringBody(s[1..], final)
      case NeedMore => NeedMore
      case Error => Error
      case Ok(units, n) => Ok(Str(units), n + 1)
    else if s[0] == LOWER_T then Literal(s, final, TRUE_TEXT, Bool(true))
    else if s[0] == LOWER_F then Literal(s, final, FALSE_TEXT, Bool(false))
    else if s[0] == LOWER_N then Literal(s, final, NULL_TEXT, Null)
    else if s[0] == MINUS || IsDigit(s[0]) then Number(s, final, inRange)
    else Error
  }

  /** lex_token where the token starts. */
  function TokenAt(s: Bytes, final: bool, inRange: Bytes -> bool): (r: Scan<Token>)
    requires s != []
    ensures r.Ok? ==> 1 <= r.used <= |s| && !r.value.End?
  {
    if !Punctuation(s[0]).End? then Ok(Punctuation(s[0]), 1)
    else
      match ScalarAt(s, final, inRange)
      case NeedMore => NeedMore
      case Error => Error
      case Ok(v, n) => Ok(Scalar(v), n)
  }

  /** lex_token: white space, then a token; End only at the end of final input. */
  function Lex(s: Bytes, final: bool, inRange: Bytes -> bool): (r: Scan<Token>)
    ensures r.Ok? ==> r.used <= |s| && (r.value.End? ==> final) && (!r.value.End? ==> r.used >= 1)
  {
    var k := WsCount(s);
    if k == |s| then if final then Ok(End, k) else NeedMore
    else
      match TokenAt(s[k..], final, inRange)
      case NeedMore => NeedMore
      case Error => Error
      case Ok(tok, n) => Ok(tok, k + n)
  }

  // ---------------------------------------------------------------- stable under extension

  lemma HexStable(s: Bytes, t: Bytes)
    requires |s| >= 2
    requires !UnicodeEscape(s, false).NeedMore?
    ensures forall f :: UnicodeEscape(s + t, f) == UnicodeEscape(s, false)
  {
    assert (s + t)[2..6] == s[2..6];
    if |s| >= 12 { assert (s + t)[8..12] == s[8..12]; }
  }

  lemma ElementStable(s: Bytes, t: Bytes, f: bool)
    requires s != []
    requires !Element(s, false).NeedMore?
    ensures Element(s + t, f) == Element(s, false)
  {
    hide UnicodeEscape, UnitsOf;
    assert (s + t)[0] == s[0];
    if s[0] == BACKSLASH && s[1] == LOWER_U { HexStable(s, t); }
    if s[0] != QUOTE && s[0] != BACKSLASH && s[0] >= 0x20 { PointStable(s, t, f); }
  }

  lemma PointStable(s: Bytes, t: Bytes, f: bool)
    requires !DecodePoint(s, false).NeedMore?
    ensures DecodePoint(s + t, f) == DecodePoint(s, false)
  {
  }

  lemma {:induction false} StringStable(s: Bytes, t: Bytes, f: bool)
    requires !StringBody(s, false).NeedMore?
    ensures StringBody(s + t, f) == StringBody(s, false)
    decreases |s|
  {
    hide Element;
    ElementStable(s, t, f);
    assert (s + t)[0] == s[0];
    if Element(s, false).Ok? && s[0] != QUOTE {
      var n := Element(s, false).used;
      assert (s + t)[n..] == s[n..] + t;
      StringStable(s[n..], t, f);
    }
  }

  lemma {:induction false} DigitsEndStable(s: Bytes, t: Bytes, i: nat)
    requires i <= |s| && DigitsEnd(s, i) < |s|
    ensures DigitsEnd(s + t, i) == DigitsEnd(s, i)
    decreases |s| - i
  {
    assert i < |s| ==> (s + t)[i] == s[i];
    if i < |s| && IsDigit(s[i]) { DigitsEndStable(s, t, i + 1); }
  }

  /** A part that ends before the bytes do, or is malformed, does not change. */
  predicate PartStable(p: Part, len: nat) { p.Bad? || (p.At? && p.pos < len) }

  lemma IntegerStable(s: Bytes, t: Bytes, i: nat)
    requires i <= |s| && PartStable(IntegerPart(s, i), |s|)
    ensures IntegerPart(s + t, i) == IntegerPart(s, i)
  {
    if s[i] != ZERO && IsDigit(s[i]) { DigitsEndStable(s, t, i); }
  }

  lemma RunStable(s: Bytes, t: Bytes, i: nat)
    requires i <= |s| && PartStable(DigitRun(s, i), |s|)
    ensures DigitRun(s + t, i) == DigitRun(s, i)
  {
    if IsDigit(s[i]) { DigitsEndStable(s, t, i); }
  }

  lemma FractionStable(s: Bytes, t: Bytes, i: nat)
    requires i < |s| && PartStable(FractionPart(s, i), |s|)
    ensures FractionPart(s + t, i) == FractionPart(s, i)
  {
    if s[i] == DOT { RunStable(s, t, i + 1); }
  }

  lemma ExponentStable(s: Bytes, t: Bytes, i: nat)
    requires i < |s| && PartStable(ExponentPart(s, i), |s|)
    ensures ExponentPart(s + t, i) == ExponentPart(s, i)
  {
    if s[i] == LOWER_E || s[i] == UPPER_E {
      if i + 1 < |s| && (s[i + 1] == PLUS || s[i + 1] == MINUS) {
        RunStable(s, t, i + 2);
      } else {
        RunStable(s, t, i + 1);
      }
    }
  }

  lemma ExtentStable(s: Bytes, t: Bytes)
    requires NumberExtent(s).Malformed? || (NumberExtent(s).Extent? && NumberExtent(s).total < |s|)
    ensures NumberExtent(s + t) == NumberExtent(s)
  {
    hide IntegerPart, FractionPart, ExponentPart;
    EmptyCut(s);
    assert SignLength(s + t) == SignLength(s);
    var p := IntegerPart(s, SignLength(s));
    AtEnd(s);
    IntegerStable(s, t, SignLength(s));
    if p.At? {
      var q := FractionPart(s, p.pos);
      FractionStable(s, t, p.pos);
      if q.At? { ExponentStable(s, t, q.pos); }
    }
  }

  lemma EmptyCut(s: Bytes)
    ensures IntegerPart([], 0) == Cut
  {
  }

  /** A part that reaches the end of the bytes has nothing after it. */
  lemma AtEnd(s: Bytes)
    ensures FractionPart(s, |s|) == At(|s|) && ExponentPart(s, |s|) == At(|s|)
  {
  }

  lemma NumberStable(s: Bytes, t: Bytes, f: bool, inRange: Bytes -> bool)
    requires !Number(s, false, inRange).NeedMore?
    ensures Number(s + t, f, inRange) == Number(s, false, inRange)
  {
    hide NumberExtent, NumberValue;
    ExtentStable(s, t);
    var e := NumberExtent(s);
    if e.Extent? {
      assert (s + t)[..e.total] == s[..e.total];
      assert (s + t)[e.total] == s[e.total];
    }
  }

  lemma LiteralStable(s: Bytes, t: Bytes, f: bool, text: Bytes, v: Value)
    requires text != [] && !Literal(s, false, text, v).NeedMore?
    ensures Literal(s + t, f, text, v) == Literal(s, false, text, v)
  {
    assert text <= s <==> text <= s + t;
  }

  lemma ScalarStable(s: Bytes, t: Bytes, f: bool, inRange: Bytes -> bool)
    requires s != [] && !ScalarAt(s, false, inRange).NeedMore?
    ensures ScalarAt(s + t, f, inRange) == ScalarAt(s, false, inRange)
  {
    hide StringBody, Literal, Number;
    assert (s + t)[0] == s[0] && (s + t)[1..] == s[1..] + t;
    if s[0] == QUOTE { StringStable(s[1..], t, f); }
    else if s[0] == LOWER_T { LiteralStable(s, t, f, TRUE_TEXT, Bool(true)); }
    else if s[0] == LOWER_F { LiteralStable(s, t, f, FALSE_TEXT, Bool(false)); }
    else if s[0] == LOWER_N { LiteralStable(s, t, f, NULL_TEXT, Null); }
    else if s[0] == MINUS || IsDigit(s[0]) { NumberStable(s, t, f, inRange); }
  }

  lemma {:induction false} WsStable(s: Bytes, t: Bytes)
    ensures WsCount(s + t) == if WsCount(s) == |s| then |s| + WsCount(t) else WsCount(s)
  {
    if s == [] {
      assert s + t == t;
    } else {
      assert (s + t)[1..] == s[1..] + t;
      WsStable(s[1..], t);
    }
  }

  /** A token accepted or rejected before the input is final stays so under any extension. */
  lemma LexStable(s: Bytes, t: Bytes, f: bool, inRange: Bytes -> bool)
    requires !Lex(s, false, inRange).NeedMore?
    ensures Lex(s + t, f, inRange) == Lex(s, false, inRange)
  {
    hide ScalarAt, WsCount;
    var k := WsCount(s);
    WsStable(s, t);
    assert (s + t)[k..] == s[k..] + t;
    assert (s[k..] + t)[0] == s[k];
    if Punctuation(s[k]).End? { ScalarStable(s[k..], t, f, inRange); }
  }

  /** Leading white space may be dropped before more bytes arrive. */
  lemma LexSkips(s: Bytes, t: Bytes, f: bool, inRange: Bytes -> bool)
    ensures var k := WsCount(s);
            var a := Lex(s + t, f, inRange);
            var b := Lex(s[k..] + t, f, inRange);
            && (a.NeedMore? <==> b.NeedMore?) && (a.Error? <==> b.Error?)
            && (a.Ok? ==> a.value == b.value && a.used == k + b.used)
            && WsCount(s + t) == k + WsCount(s[k..] + t)
  {
    hide TokenAt, WsCount, IsWs;
    var k := WsCount(s);
    WsSplits(s, t);
    var m := WsCount(s + t);
    Drops(s, t, k, m);
  }

  lemma Drops(s: Bytes, t: Bytes, k: nat, m: nat)
    requires k <= |s| && k <= m <= |s| + |t|
    ensures (s + t)[m..] == (s[k..] + t)[m - k..] && |s[k..] + t| == |s + t| - k
  {
    assert s[k..] + t == (s + t)[k..];
  }

  lemma WsSplits(s: Bytes, t: Bytes)
    ensures var k := WsCount(s); WsCount(s + t) == k + WsCount(s[k..] + t)
  {
    hide WsCount, IsWs;
    WsStable(s, t);
    WsStable(s[WsCount(s)..], t);
    WsRest(s);
  }

  lemma {:induction false} WsRest(s: Bytes)
    ensures WsCount(s[WsCount(s)..]) == 0
  {
    if s != [] && IsWs(s[0]) {
      WsRest(s[1..]);
      assert s[WsCount(s)..] == s[1..][WsCount(s[1..])..];
    }
  }
}
