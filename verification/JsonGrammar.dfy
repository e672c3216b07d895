/**
 The JSON grammar of RFC 8259 as trees of what is written, with what each tree
 means: the reference the parsers are held to. Nothing here calls the lexer.
 The one narrowing is the source's: an escape that names a surrogate must be
 half of a pair.
 */
module JsonGrammar {
  import opened Octets
  import opened JsonLex
  import opened JsonStream
  import opened JsonUtf

  // ---------------------------------------------------------------- strings

  /** A hexadecimal digit, in either case. */
  datatype Hex = Hex(value: nat, upper: bool)

  predicate IsQuad(q: seq<Hex>) {
    |q| == 4 && forall i :: 0 <= i < 4 ==> q[i].value < 16
  }

  function HexByte(h: Hex): Byte
    requires h.value < 16
  {
    if h.value < 10 then 0x30 + h.value else if h.upper then 0x41 + (h.value - 10) else 0x61 + (h.value - 10)
  }

  /** The escape of four digits. */
  function QuadText(q: seq<Hex>): Bytes
    requires IsQuad(q)
  {
    [0x5C, 0x75, HexByte(q[0]), HexByte(q[1]), HexByte(q[2]), HexByte(q[3])]
  }

  function QuadValue(q: seq<Hex>): nat
    requires IsQuad(q)
  {
    q[0].value * 0x1000 + q[1].value * 0x100 + q[2].value * 0x10 + q[3].value
  }

  /** The letters that may follow a backslash, with the character each stands for. */
  const LETTERS: map<int, nat> :=
    map[0x22 := 0x22, 0x5C := 0x5C, 0x2F := 0x2F, 0x62 := 8, 0x66 := 12, 0x6E := 10, 0x72 := 13, 0x74 := 9]

  /** One character of a string as it is written. */
  datatype Char = Raw(code: nat) | Letter(letter: Byte) | Unicode(quad: seq<Hex>) | Pair(high: seq<Hex>, low: seq<Hex>)

  predicate CharOk(c: Char) {
    match c
    case Raw(code) => 0x20 <= code <= 0x10FFFF && !(0xD800 <= code <= 0xDFFF) && code != 0x22 && code != 0x5C
    case Letter(b) => b in LETTERS
    case Unicode(q) => IsQuad(q) && !(0xD800 <= QuadValue(q) <= 0xDFFF)
    case Pair(h, l) =>
      IsQuad(h) && IsQuad(l) && 0xD800 <= QuadValue(h) <= 0xDBFF && 0xDC00 <= QuadValue(l) <= 0xDFFF
  }

  function CharText(c: Char): (r: Bytes)
    requires CharOk(c)
    ensures r != []
  {
    match c
    case Raw(code) => EncodePoint(code)
    case Letter(b) => [0x5C, b]
    case Unicode(q) => QuadText(q)
    case Pair(h, l) => QuadText(h) + QuadText(l)
  }

  /** The UTF-16 code units a character stands for. */
  function CharUnits(c: Char): Units
    requires CharOk(c)
  {
    match c
    case Raw(code) =>
      if code < 0x10000 then [code] else [0xD7C0 + code / 0x400, 0xDC00 + code % 0x400]
    case Letter(b) => [LETTERS[b]]
    case Unicode(q) => [QuadValue(q)]
    case Pair(h, l) => [QuadValue(h), QuadValue(l)]
  }

  predicate CharsOk(chars: seq<Char>) {
    forall i :: 0 <= i < |chars| ==> CharOk(chars[i])
  }

  /** A string's characters, its closing quote, then `rest`. */
  function CharsOn(chars: seq<Char>, rest: Bytes): Bytes
    requires CharsOk(chars)
  {
    if chars == [] then [0x22] + rest else CharText(chars[0]) + CharsOn(chars[1..], rest)
  }

  function CharsUnits(chars: seq<Char>): Units
    requires CharsOk(chars)
  {
    if chars == [] then [] else CharUnits(chars[0]) + CharsUnits(chars[1..])
  }

  // ---------------------------------------------------------------- numbers

  datatype Exponent = Exponent(mark: Byte, sign: Bytes, digits: Bytes)

  datatype Numeral = Numeral(minus: bool, whole: Bytes, fraction: Option<Bytes>, exponent: Option<Exponent>)

  predicate AreDigits(ds: Bytes) {
    ds != [] && forall i :: 0 <= i < |ds| ==> 0x30 <= ds[i] <= 0x39
  }

  predicate NumeralOk(n: Numeral) {
    && AreDigits(n.whole) && (n.whole[0] == 0x30 ==> |n.whole| == 1)
    && (n.fraction.Some? ==> AreDigits(n.fraction.value))
    && (n.exponent.Some? ==> ExponentOk(n.exponent.value))
  }

  predicate ExponentOk(e: Exponent) {
    && (e.mark == 0x65 || e.mark == 0x45)
    && (e.sign == [] || e.sign == [0x2B] || e.sign == [0x2D])
    && AreDigits(e.digits)
  }

  function FractionText(f: Option<Bytes>): Bytes {
    if f.None? then [] else [0x2E] + f.value
  }

  function ExponentText(e: Option<Exponent>): Bytes {
    if e.None? then [] else [e.value.mark] + (e.value.sign + e.value.digits)
  }

  function SignText(minus: bool): Bytes {
    if minus then [0x2D] else []
  }

  function NumeralText(n: Numeral): Bytes {
    SignText(n.minus) + (n.whole + (FractionText(n.fraction) + ExponentText(n.exponent)))
  }

  predicate IsInteger(n: Numeral) {
    n.fraction.None? && n.exponent.None?
  }

  function Power10(n: nat): nat {
    if n == 0 then 1 else 10 * Power10(n - 1)
  }

  function DigitValue(b: int): int {
    b - 0x30
  }

  /** The number the digits write, the first of them counting most. */
  function Positional(ds: Bytes): int {
    if ds == [] then 0 else DigitValue(ds[0]) * Power10(|ds| - 1) + Positional(ds[1..])
  }

  function IntegerValue(n: Numeral): int {
    if n.minus then -Positional(n.whole) else Positional(n.whole)
  }

  /** An integer fits 64 bits; any other number is one the conversion to a double takes. */
  predicate InRange(n: Numeral, inRange: Bytes -> bool) {
    if IsInteger(n) then -0x8000_0000_0000_0000 <= IntegerValue(n) <= 0x7FFF_FFFF_FFFF_FFFF
    else inRange(NumeralText(n))
  }

  // ---------------------------------------------------------------- values

  /** A value as it is written, with the white space inside it. */
  datatype Doc =
    | NullWord | TrueWord | FalseWord
    | Number(numeral: Numeral)
    | Text(chars: seq<Char>)
    | List(blank: Bytes, items: seq<Item>)
    | Table(blank: Bytes, fields: seq<Field>)

  datatype Item = Item(before: Bytes, doc: Doc, after: Bytes)

  datatype Field = Field(before: Bytes, key: seq<Char>, gap: Bytes, space: Bytes, doc: Doc, after: Bytes)

  predicate Blank(s: Bytes) {
    forall i :: 0 <= i < |s| ==> s[i] == 0x20 || s[i] == 0x09 || s[i] == 0x0A || s[i] == 0x0D
  }

  predicate DocOk(doc: Doc, inRange: Bytes -> bool)
    decreases doc
  {
    match doc
    case Number(n) => NumeralOk(n) && InRange(n, inRange)
    case Text(chars) => CharsOk(chars)
    case List(blank, items) => Blank(blank) && ItemsOk(items, inRange)
    case Table(blank, fields) => Blank(blank) && FieldsOk(fields, inRange)
    case _ => true
  }

  predicate ItemsOk(items: seq<Item>, inRange: Bytes -> bool)
    decreases items
  {
    items != [] ==>
      && Blank(items[0].before) && DocOk(items[0].doc, inRange) && Blank(items[0].after)
      && ItemsOk(items[1..], inRange)
  }

  predicate FieldsOk(fields: seq<Field>, inRange: Bytes -> bool)
    decreases fields
  {
    fields != [] ==>
      && FieldMarksOk(fields[0]) && DocOk(fields[0].doc, inRange)
      && FieldsOk(fields[1..], inRange)
  }

  predicate FieldMarksOk(f: Field) {
    Blank(f.before) && CharsOk(f.key) && Blank(f.gap) && Blank(f.space) && Blank(f.after)
  }

  /** The text of a value, then `rest`. */
  function DocOn(doc: Doc, rest: Bytes, inRange: Bytes -> bool): Bytes
    requires DocOk(doc, inRange)
    decreases doc, 0
  {
    match doc
    case NullWord => [0x6E, 0x75, 0x6C, 0x6C] + rest
    case TrueWord => [0x74, 0x72, 0x75, 0x65] + rest
    case FalseWord => [0x66, 0x61, 0x6C, 0x73, 0x65] + rest
    case Number(n) => NumeralText(n) + rest
    case Text(chars) => [0x22] + CharsOn(chars, rest)
    case List(blank, items) =>
      [0x5B] + if items == [] then blank + ([0x5D] + rest) else ItemsOn(items, rest, inRange)
    case Table(blank, fields) =>
      [0x7B] + if fields == [] then blank + ([0x7D] + rest) else FieldsOn(fields, rest, inRange)
  }

  /** The elements of an array after its bracket. */
  function ItemsOn(items: seq<Item>, rest: Bytes, inRange: Bytes -> bool): Bytes
    requires items != [] && ItemsOk(items, inRange)
    decreases items, 1
  {
    items[0].before + DocOn(items[0].doc, ItemsTail(items, rest, inRange), inRange)
  }

  /** What stands behind the first element. */
  function ItemsTail(items: seq<Item>, rest: Bytes, inRange: Bytes -> bool): Bytes
    requires items != [] && ItemsOk(items, inRange)
    decreases items, 0
  {
    items[0].after + if |items| == 1 then [0x5D] + rest else [0x2C] + ItemsOn(items[1..], rest, inRange)
  }

  /** The members of an object after its brace. */
  function FieldsOn(fields: seq<Field>, rest: Bytes, inRange: Bytes -> bool): Bytes
    requires fields != [] && FieldsOk(fields, inRange)
    decreases fields, 2
  {
    fields[0].before + ([0x22] + CharsOn(fields[0].key, fields[0].gap + ([0x3A] + FieldOn(fields, rest, inRange))))
  }

  /** The first member's value and what stands behind it. */
  function FieldOn(fields: seq<Field>, rest: Bytes, inRange: Bytes -> bool): Bytes
    requires fields != [] && FieldsOk(fields, inRange)
    decreases fields, 1
  {
    fields[0].space + DocOn(fields[0].doc, FieldsTail(fields, rest, inRange), inRange)
  }

  function FieldsTail(fields: seq<Field>, rest: Bytes, inRange: Bytes -> bool): Bytes
    requires fields != [] && FieldsOk(fields, inRange)
    decreases fields, 0
  {
    fields[0].after + if |fields| == 1 then [0x7D] + rest else [0x2C] + FieldsOn(fields[1..], rest, inRange)
  }

  function Meaning(doc: Doc, inRange: Bytes -> bool): Value
    requires DocOk(doc, inRange)
    decreases doc
  {
    match doc
    case NullWord => Null
    case TrueWord => Bool(true)
    case FalseWord => Bool(false)
    case Number(n) => if IsInteger(n) then Int(IntegerValue(n)) else Float(NumeralText(n))
    case Text(chars) => Str(CharsUnits(chars))
    case List(_, items) => Arr(Meanings(items, inRange))
    case Table(_, fields) => Obj(Members([], fields, inRange))
  }

  function Meanings(items: seq<Item>, inRange: Bytes -> bool): seq<Value>
    requires ItemsOk(items, inRange)
    decreases items
  {
    if items == [] then [] else [Meaning(items[0].doc, inRange)] + Meanings(items[1..], inRange)
  }

  /** A later member with the same key replaces the value and keeps the place. */
  function Members(done: seq<Member>, fields: seq<Field>, inRange: Bytes -> bool): seq<Member>
    requires FieldsOk(fields, inRange)
    decreases fields
  {
    if fields == [] then done
    else Members(SetMember(done, CharsUnits(fields[0].key), Meaning(fields[0].doc, inRange)), fields[1..], inRange)
  }

  /** `s` is a JSON text that means `v`. */
  ghost predicate Denotes(s: Bytes, v: Value, inRange: Bytes -> bool) {
    exists before, doc, after :: IsText(s, before, doc, after, inRange) && Meaning(doc, inRange) == v
  }

  ghost predicate IsText(s: Bytes, before: Bytes, doc: Doc, after: Bytes, inRange: Bytes -> bool) {
    Blank(before) && DocOk(doc, inRange) && Blank(after) && s == before + DocOn(doc, after, inRange)
  }
}
