/**
 The generator's options: the text with line breaks is the compact text run
 through a formatter, and escaping the solidus puts a backslash before each one.
 */
module JsonLayout {
  import opened Octets
  import opened JsonLex
  import opened JsonUtf
  import opened JsonText
  import R = JsonRoundTrip

  // ---------------------------------------------------------------- line breaks

  function NewLine(depth: nat, indent: Bytes): Bytes {
    [0x0A] + Repeat(indent, depth)
  }

  /** Copies a string up to its closing quote, then goes on formatting. */
  function Quoted(s: Bytes, depth: nat, indent: Bytes): Bytes
    decreases |s|
  {
    if s == [] then []
    else if s[0] == 0x5C && |s| > 1 then s[..2] + Quoted(s[2..], depth, indent)
    else if s[0] == 0x22 then [0x22] + Pretty(s[1..], depth, indent)
    else [s[0]] + Quoted(s[1..], depth, indent)
  }

  /** A formatter of compact JSON: one element or member a line, indented by its depth, a space behind each colon. */
  function Pretty(s: Bytes, depth: nat, indent: Bytes): Bytes
    decreases |s|
  {
    if s == [] then []
    else if s[0] == 0x22 then [0x22] + Quoted(s[1..], depth, indent)
    else if s[0] == 0x5B || s[0] == 0x7B then
      if |s| > 1 && (s[1] == 0x5D || s[1] == 0x7D) then s[..2] + Pretty(s[2..], depth, indent)
      else [s[0]] + NewLine(depth + 1, indent) + Pretty(s[1..], depth + 1, indent)
    else if s[0] == 0x5D || s[0] == 0x7D then
      var out := if depth > 0 then depth - 1 else 0;
      NewLine(out, indent) + [s[0]] + Pretty(s[1..], out, indent)
    else if s[0] == 0x2C then [0x2C] + NewLine(depth, indent) + Pretty(s[1..], depth, indent)
    else if s[0] == 0x3A then [0x3A, 0x20] + Pretty(s[1..], depth, indent)
    else [s[0]] + Pretty(s[1..], depth, indent)
  }

  /** A byte the formatter only copies. */
  predicate Plain(b: int) {
    b !in {0x22, 0x5B, 0x5D, 0x7B, 0x7D, 0x2C, 0x3A}
  }

  lemma {:induction false} PrettyPlain(s: Bytes, rest: Bytes, depth: nat, indent: Bytes)
    requires forall i :: 0 <= i < |s| ==> Plain(s[i])
    ensures Pretty(s + rest, depth, indent) == s + Pretty(rest, depth, indent)
    decreases |s|
  {
    if s == [] {
      assert s + rest == rest;
    } else {
      assert (s + rest)[1..] == s[1..] + rest;
      PrettyPlain(s[1..], rest, depth, indent);
    }
  }

  lemma QuotedByte(b: Byte, st: Style, rest: Bytes, depth: nat, indent: Bytes)
    ensures Quoted(EscapeByte(b, st) + rest, depth, indent) == EscapeByte(b, st) + Quoted(rest, depth, indent)
  {
    hide Pretty;
    var e := EscapeByte(b, st);
    var s := e + rest;
    if |e| == 1 {
      assert s[1..] == rest;
    } else if |e| == 2 {
      assert s[..2] == e && s[2..] == rest;
    } else {
      assert s[..2] == e[..2] && s[2..] == e[2..] + rest;
      QuotedPlain(e[2..], rest, depth, indent);
      assert e == e[..2] + e[2..];
    }
  }

  lemma {:induction false} QuotedPlain(s: Bytes, rest: Bytes, depth: nat, indent: Bytes)
    requires forall i :: 0 <= i < |s| ==> s[i] != 0x22 && s[i] != 0x5C
    ensures Quoted(s + rest, depth, indent) == s + Quoted(rest, depth, indent)
    decreases |s|
  {
    hide Pretty;
    if s == [] {
      assert s + rest == rest;
    } else {
      assert (s + rest)[1..] == s[1..] + rest;
      QuotedPlain(s[1..], rest, depth, indent);
    }
  }

  lemma {:induction false} QuotedText(s: Bytes, st: Style, rest: Bytes, depth: nat, indent: Bytes)
    ensures Quoted(Escape(s, st) + ([0x22] + rest), depth, indent)
         == Escape(s, st) + ([0x22] + Pretty(rest, depth, indent))
    decreases |s|
  {
    hide EscapeByte, Pretty;
    var more := [0x22] + rest;
    if s == [] {
      assert Escape(s, st) + more == more && more[1..] == rest;
    } else {
      var e, inner := EscapeByte(s[0], st), Escape(s[1..], st);
      QuotedText(s[1..], st, rest, depth, indent);
      QuotedByte(s[0], st, inner + more, depth, indent);
      Assoc(e, inner, more);
      Assoc(e, inner, [0x22] + Pretty(rest, depth, indent));
    }
  }

  lemma PrettyString(units: Units, st: Style, rest: Bytes, depth: nat, indent: Bytes)
    requires WellFormed(units)
    ensures Pretty(StringText(units, st) + rest, depth, indent) == StringText(units, st) + Pretty(rest, depth, indent)
  {
    hide Escape, Quoted;
    var e := Escape(ToUtf8(units).value, st);
    QuotedText(ToUtf8(units).value, st, rest, depth, indent);
    assert (StringText(units, st) + rest)[1..] == e + ([0x22] + rest);
    assert [0x22] + (e + ([0x22] + Pretty(rest, depth, indent))) ==
           StringText(units, st) + Pretty(rest, depth, indent);
  }

  /** The styles that differ from `st` in their line breaks alone. */
  function Flat(st: Style): Style { st.(beauty := false) }

  lemma PrettyScalar(v: Value, level: nat, rest: Bytes, st: Style)
    requires Writable(v) && !v.Arr? && !v.Obj? && st.beauty
    ensures Pretty(Text(v, level, Flat(st)) + rest, level, st.indent)
         == Text(v, level, st) + Pretty(rest, level, st.indent)
  {
    hide Pretty, Digits, Escape;
    match v {
      case Null => PrettyPlain(NULL_TEXT, rest, level, st.indent);
      case Bool(b) => PrettyPlain(Text(v, level, st), rest, level, st.indent);
      case Int(i) =>
        R.DigitsAre(if i < 0 then -i else i);
        PrettyPlain(IntText(i), rest, level, st.indent);
      case Str(units) =>
        SameEscapes(ToUtf8(units).value, st);
        PrettyString(units, st, rest, level, st.indent);
    }
  }

  lemma {:induction false} SameEscapes(s: Bytes, st: Style)
    ensures Escape(s, Flat(st)) == Escape(s, st)
  {
    if s != [] { SameEscapes(s[1..], st); }
  }

  /** The elements without the line break before the first. */
  function ElemsInner(elems: seq<Value>, level: nat, st: Style): Bytes
    requires elems != [] && AllWritable(elems)
  {
    Text(elems[0], level + 1, st) + R.ElemsTail(elems, level, st)
  }

  function MembersInner(members: seq<Member>, level: nat, st: Style): Bytes
    requires members != [] && MembersWritable(members)
  {
    StringText(members[0].key, st) + ([COLON] + (ColonSpace(st) +
    (Text(members[0].value, level + 1, st) + R.MembersTail(members, level, st))))
  }

  /** The formatter turns the flat text of a value into the one with line breaks. */
  ghost predicate Formats(v: Value, level: nat, rest: Bytes, st: Style)
    requires Writable(v)
  {
    Pretty(Text(v, level, Flat(st)) + rest, level, st.indent) == Text(v, level, st) + Pretty(rest, level, st.indent)
  }

  ghost predicate FormatsElems(elems: seq<Value>, level: nat, rest: Bytes, st: Style)
    requires elems != [] && AllWritable(elems)
  {
    Pretty(ElemsText(elems, level, Flat(st)) + rest, level + 1, st.indent) ==
    ElemsInner(elems, level, st) + Pretty(rest, level, st.indent)
  }

  ghost predicate FormatsMembers(members: seq<Member>, level: nat, rest: Bytes, st: Style)
    requires members != [] && MembersWritable(members)
  {
    Pretty(MembersText(members, level, Flat(st)) + rest, level + 1, st.indent) ==
    MembersInner(members, level, st) + Pretty(rest, level, st.indent)
  }

  lemma PrettyClose(b: Byte, rest: Bytes, level: nat, st: Style)
    requires st.beauty && (b == CLOSE_BRACKET || b == CLOSE_BRACE)
    ensures Pretty([b] + rest, level + 1, st.indent) == Break(level, st) + [b] + Pretty(rest, level, st.indent)
  {
    assert ([b] + rest)[1..] == rest;
  }

  lemma PrettyComma(rest: Bytes, level: nat, st: Style)
    requires st.beauty
    ensures Pretty([COMMA] + rest, level, st.indent) == [COMMA] + Break(level, st) + Pretty(rest, level, st.indent)
  {
    assert ([COMMA] + rest)[1..] == rest;
  }

  lemma PrettyColon(rest: Bytes, level: nat, st: Style)
    requires st.beauty
    ensures Pretty([COLON] + rest, level, st.indent) == [COLON] + ColonSpace(st) + Pretty(rest, level, st.indent)
  {
    assert ([COLON] + rest)[1..] == rest;
  }

  lemma PrettyOpen(b: Byte, s: Bytes, level: nat, st: Style)
    requires st.beauty && (b == OPEN_BRACKET || b == OPEN_BRACE)
    requires s != [] && s[0] != CLOSE_BRACKET && s[0] != CLOSE_BRACE
    ensures Pretty([b] + s, level, st.indent) == [b] + Break(level + 1, st) + Pretty(s, level + 1, st.indent)
  {
    assert ([b] + s)[1..] == s;
  }

  lemma PrettyEmpty(b: Byte, c: Byte, rest: Bytes, level: nat, indent: Bytes)
    requires (b == OPEN_BRACKET && c == CLOSE_BRACKET) || (b == OPEN_BRACE && c == CLOSE_BRACE)
    ensures Pretty([b] + [c] + rest, level, indent) == [b] + [c] + Pretty(rest, level, indent)
  {
    var s := [b] + [c] + rest;
    assert s[..2] == [b] + [c] && s[2..] == rest;
  }

  /** Neither bracket nor brace closes where a value starts. */
  lemma Starts(v: Value, level: nat, st: Style)
    requires Writable(v)
    ensures var t := Text(v, level, st); t != [] && t[0] != CLOSE_BRACKET && t[0] != CLOSE_BRACE
  {
    hide Digits, Escape, ElemsText, MembersText;
    if v.Int? { R.DigitsAre(if v.i < 0 then -v.i else v.i); }
  }

  /** What stands behind an element. */
  lemma TailFormats(elems: seq<Value>, level: nat, rest: Bytes, st: Style)
    requires elems != [] && AllWritable(elems) && st.beauty
    requires |elems| > 1 ==> AllWritable(elems[1..]) && FormatsElems(elems[1..], level, rest, st)
    ensures Pretty(R.ElemsTail(elems, level, Flat(st)) + rest, level + 1, st.indent) ==
            R.ElemsTail(elems, level, st) + Pretty(rest, level, st.indent)
  {
    hide Pretty, Text, ElemsText, Break;
    var p := Pretty(rest, level, st.indent);
    if |elems| == 1 {
      FlatBreak(level, st);
      assert R.ElemsTail(elems, level, Flat(st)) == [CLOSE_BRACKET];
      PrettyClose(CLOSE_BRACKET, rest, level, st);
    } else {
      var more, inner := ElemsText(elems[1..], level, Flat(st)), ElemsInner(elems[1..], level, st);
      PrettyComma(more + rest, level + 1, st);
      R.ElemsTextIs(elems[1..], level, st);
      Assoc([COMMA], more, rest);
      assert [COMMA] + Break(level + 1, st) + (inner + p) == [COMMA] + (Break(level + 1, st) + inner) + p;
    }
  }

  lemma FlatBreak(level: nat, st: Style)
    ensures Break(level, Flat(st)) == [] && ColonSpace(Flat(st)) == []
  {
  }

  lemma ElemsStep(elems: seq<Value>, level: nat, rest: Bytes, st: Style)
    requires elems != [] && AllWritable(elems) && st.beauty
    requires |elems| > 1 ==> AllWritable(elems[1..]) && FormatsElems(elems[1..], level, rest, st)
    requires Formats(elems[0], level + 1, R.ElemsTail(elems, level, Flat(st)) + rest, st)
    ensures FormatsElems(elems, level, rest, st)
  {
    hide Pretty, Text, ElemsText, Break, R.ElemsTail;
    var t, tail := Text(elems[0], level + 1, Flat(st)), R.ElemsTail(elems, level, Flat(st));
    TailFormats(elems, level, rest, st);
    R.ElemsTextIs(elems, level, Flat(st));
    FlatBreak(level + 1, st);
    assert [] + (t + tail) == t + tail;
    Assoc(t, tail, rest);
    Assoc(Text(elems[0], level + 1, st), R.ElemsTail(elems, level, st), Pretty(rest, level, st.indent));
  }

  lemma ArrayStep(elems: seq<Value>, level: nat, rest: Bytes, st: Style)
    requires Writable(Arr(elems)) && st.beauty && (elems != [] ==> FormatsElems(elems, level, rest, st))
    ensures Formats(Arr(elems), level, rest, st)
  {
    hide Pretty, ElemsText, Break, R.ElemsTail;
    if elems == [] {
      PrettyEmpty(OPEN_BRACKET, CLOSE_BRACKET, rest, level, st.indent);
    } else {
      var body, inner := ElemsText(elems, level, Flat(st)), ElemsInner(elems, level, st);
      R.ElemsTextIs(elems, level, Flat(st));
      R.ElemsTextIs(elems, level, st);
      FlatBreak(level + 1, st);
      Starts(elems[0], level + 1, Flat(st));
      assert body[0] == Text(elems[0], level + 1, Flat(st))[0];
      PrettyOpen(OPEN_BRACKET, body + rest, level, st);
      Assoc([OPEN_BRACKET], body, rest);
      assert [OPEN_BRACKET] + Break(level + 1, st) + (inner + Pretty(rest, level, st.indent)) ==
             [OPEN_BRACKET] + (Break(level + 1, st) + inner) + Pretty(rest, level, st.indent);
    }
  }

  lemma MembersTailFormats(members: seq<Member>, level: nat, rest: Bytes, st: Style)
    requires members != [] && MembersWritable(members) && st.beauty
    requires |members| > 1 ==> MembersWritable(members[1..]) && FormatsMembers(members[1..], level, rest, st)
    ensures Pretty(R.MembersTail(members, level, Flat(st)) + rest, level + 1, st.indent) ==
            R.MembersTail(members, level, st) + Pretty(rest, level, st.indent)
  {
    hide Pretty, Text, MembersText, Break, StringText, ColonSpace;
    var p := Pretty(rest, level, st.indent);
    if |members| == 1 {
      FlatBreak(level, st);
      assert R.MembersTail(members, level, Flat(st)) == [CLOSE_BRACE];
      PrettyClose(CLOSE_BRACE, rest, level, st);
    } else {
      var more, inner := MembersText(members[1..], level, Flat(st)), MembersInner(members[1..], level, st);
      PrettyComma(more + rest, level + 1, st);
      R.MembersTextIs(members[1..], level, st);
      Assoc([COMMA], more, rest);
      assert [COMMA] + Break(level + 1, st) + (inner + p) == [COMMA] + (Break(level + 1, st) + inner) + p;
    }
  }

  /** Five parts in a row. */
  lemma Five(a: Bytes, b: Bytes, c: Bytes, d: Bytes, e: Bytes, rest: Bytes)
    ensures (a + (b + (c + (d + e)))) + rest == a + (b + (c + (d + (e + rest))))
  {
    Assoc(a, b + (c + (d + e)), rest);
    Assoc(b, c + (d + e), rest);
    Assoc(c, d + e, rest);
    Assoc(d, e, rest);
  }

  lemma MembersStep(members: seq<Member>, level: nat, rest: Bytes, st: Style)
    requires members != [] && MembersWritable(members) && st.beauty
    requires |members| > 1 ==> MembersWritable(members[1..]) && FormatsMembers(members[1..], level, rest, st)
    requires Formats(members[0].value, level + 1, R.MembersTail(members, level, Flat(st)) + rest, st)
    ensures FormatsMembers(members, level, rest, st)
  {
    hide Pretty, Text, MembersText, Break, StringText, ColonSpace, R.MembersTail;
    var key, t, tail := StringText(members[0].key, Flat(st)), Text(members[0].value, level + 1, Flat(st)),
                        R.MembersTail(members, level, Flat(st));
    MembersTailFormats(members, level, rest, st);
    R.MembersTextIs(members, level, Flat(st));
    FlatBreak(level + 1, st);
    FlatBreak(level, st);
    assert MembersText(members, level, Flat(st)) == key + ([COLON] + (t + tail)) by {
      assert [] + (key + ([COLON] + ([] + (t + tail)))) == key + ([COLON] + (t + tail));
    }
    assert [] + (t + tail) == t + tail;
    Five(key, [COLON], [], t, tail, rest);
    assert [] + (t + (tail + rest)) == t + (tail + rest);
    SameString(members[0].key, st);
    PrettyString(members[0].key, st, [COLON] + (t + (tail + rest)), level + 1, st.indent);
    PrettyColon(t + (tail + rest), level + 1, st);
    var full := R.MembersTail(members, level, st);
    Five(key, [COLON], ColonSpace(st), Text(members[0].value, level + 1, st), full, Pretty(rest, level, st.indent));
    Assoc([COLON], ColonSpace(st),
          Text(members[0].value, level + 1, st) + (full + Pretty(rest, level, st.indent)));
  }

  lemma SameString(units: Units, st: Style)
    requires WellFormed(units)
    ensures StringText(units, Flat(st)) == StringText(units, st)
  {
    SameEscapes(ToUtf8(units).value, st);
  }

  lemma ObjectStep(members: seq<Member>, level: nat, rest: Bytes, st: Style)
    requires Writable(Obj(members)) && st.beauty && (members != [] ==> FormatsMembers(members, level, rest, st))
    ensures Formats(Obj(members), level, rest, st)
  {
    hide Pretty, MembersText, Break, R.MembersTail, ColonSpace;
    if members == [] {
      PrettyEmpty(OPEN_BRACE, CLOSE_BRACE, rest, level, st.indent);
    } else {
      var body, inner := MembersText(members, level, Flat(st)), MembersInner(members, level, st);
      R.MembersTextIs(members, level, Flat(st));
      R.MembersTextIs(members, level, st);
      FlatBreak(level + 1, st);
      assert body[0] == QUOTE;
      PrettyOpen(OPEN_BRACE, body + rest, level, st);
      Assoc([OPEN_BRACE], body, rest);
      assert [OPEN_BRACE] + Break(level + 1, st) + (inner + Pretty(rest, level, st.indent)) ==
             [OPEN_BRACE] + (Break(level + 1, st) + inner) + Pretty(rest, level, st.indent);
    }
  }

  lemma {:induction false} ValueFormats(v: Value, level: nat, rest: Bytes, st: Style)
    requires Writable(v) && st.beauty
    ensures Formats(v, level, rest, st)
    decreases v, 0
  {
    hide Formats, FormatsElems, FormatsMembers;
    match v {
      case Arr(elems) =>
        if elems != [] { ElemsFormat(elems, level, rest, st); }
        ArrayStep(elems, level, rest, st);
      case Obj(members) =>
        if members != [] { MembersFormat(members, level, rest, st); }
        ObjectStep(members, level, rest, st);
      case _ =>
        PrettyScalar(v, level, rest, st);
        FormatsIs(v, level, rest, st);
    }
  }

  lemma FormatsIs(v: Value, level: nat, rest: Bytes, st: Style)
    requires Writable(v)
    requires Pretty(Text(v, level, Flat(st)) + rest, level, st.indent)
          == Text(v, level, st) + Pretty(rest, level, st.indent)
    ensures Formats(v, level, rest, st)
  {
  }

  lemma {:induction false} ElemsFormat(elems: seq<Value>, level: nat, rest: Bytes, st: Style)
    requires elems != [] && AllWritable(elems) && st.beauty
    ensures FormatsElems(elems, level, rest, st)
    decreases elems, 1
  {
    hide Formats, FormatsElems;
    ValueFormats(elems[0], level + 1, R.ElemsTail(elems, level, Flat(st)) + rest, st);
    if |elems| > 1 { ElemsFormat(elems[1..], level, rest, st); }
    ElemsStep(elems, level, rest, st);
  }

  lemma {:induction false} MembersFormat(members: seq<Member>, level: nat, rest: Bytes, st: Style)
    requires members != [] && MembersWritable(members) && st.beauty
    ensures FormatsMembers(members, level, rest, st)
    decreases members, 1
  {
    hide Formats, FormatsMembers;
    ValueFormats(members[0].value, level + 1, R.MembersTail(members, level, Flat(st)) + rest, st);
    if |members| > 1 { MembersFormat(members[1..], level, rest, st); }
    MembersStep(members, level, rest, st);
  }

  /** The text with line breaks is the compact text, formatted. */
  lemma BeautyIsFormatted(v: Value, st: Style)
    requires Writable(v) && st.beauty
    ensures Text(v, 0, st) == Pretty(Text(v, 0, Flat(st)), 0, st.indent)
  {
    hide Text, Writable;
    ValueFormats(v, 0, [], st);
    assert Text(v, 0, Flat(st)) + [] == Text(v, 0, Flat(st));
    assert Pretty([], 0, st.indent) == [];
    assert Text(v, 0, st) + [] == Text(v, 0, st);
  }

  // ---------------------------------------------------------------- the solidus

  /** A backslash before every solidus. */
  function Slashed(s: Bytes): Bytes {
    if s == [] then [] else (if s[0] == 0x2F then [0x5C, 0x2F] else [s[0]]) + Slashed(s[1..])
  }

  lemma {:induction false} SlashedConcat(a: Bytes, b: Bytes)
    ensures Slashed(a + b) == Slashed(a) + Slashed(b)
  {
    if a == [] {
      assert a + b == b;
    } else {
      assert (a + b)[1..] == a[1..] + b;
      SlashedConcat(a[1..], b);
    }
  }

  lemma {:induction false} SlashedSame(s: Bytes)
    requires 0x2F !in s
    ensures Slashed(s) == s
  {
    if s != [] { SlashedSame(s[1..]); }
  }

  function WithSolidus(st: Style, on: bool): Style { st.(escapeSolidus := on) }

  lemma {:induction false} SlashedEscape(s: Bytes, st: Style)
    ensures Slashed(Escape(s, WithSolidus(st, false))) == Escape(s, WithSolidus(st, true))
  {
    if s != [] {
      SlashedEscape(s[1..], st);
      SlashedConcat(EscapeByte(s[0], WithSolidus(st, false)), Escape(s[1..], WithSolidus(st, false)));
      SlashedByte(s[0], st);
    }
  }

  lemma SlashedByte(b: Byte, st: Style)
    ensures Slashed(EscapeByte(b, WithSolidus(st, false))) == EscapeByte(b, WithSolidus(st, true))
  {
    var e := EscapeByte(b, WithSolidus(st, false));
    if b == SLASH {
      assert e[1..] == [];
    } else {
      SlashedSame(e);
    }
  }

  lemma SlashedString(units: Units, st: Style)
    requires WellFormed(units)
    ensures Slashed(StringText(units, WithSolidus(st, false))) == StringText(units, WithSolidus(st, true))
  {
    hide Escape;
    var e := Escape(ToUtf8(units).value, WithSolidus(st, false));
    SlashedEscape(ToUtf8(units).value, st);
    SlashedConcat([QUOTE] + e, [QUOTE]);
    SlashedConcat([QUOTE], e);
    SlashedSame([QUOTE]);
  }

  lemma SlashedBreak(level: nat, st: Style)
    requires R.AllWs(st.indent)
    ensures Slashed(Break(level, st)) == Break(level, st) && Slashed(ColonSpace(st)) == ColonSpace(st)
  {
    R.BreakWs(level, st);
    NoSolidus(Break(level, st));
    NoSolidus(ColonSpace(st));
  }

  lemma NoSolidus(s: Bytes)
    requires R.AllWs(s)
    ensures Slashed(s) == s
  {
    SlashedSame(s);
  }

  lemma SlashedScalar(v: Value, level: nat, st: Style)
    requires Writable(v) && !v.Arr? && !v.Obj?
    ensures Slashed(Text(v, level, WithSolidus(st, false))) == Text(v, level, WithSolidus(st, true))
  {
    hide Digits, Slashed;
    match v {
      case Null => SlashedSame(NULL_TEXT);
      case Bool(b) => SlashedSame(Text(v, level, st));
      case Int(i) =>
        R.DigitsAre(if i < 0 then -i else i);
        SlashedSame(IntText(i));
      case Str(units) => SlashedString(units, st);
    }
  }

  /** The option changes nothing but the solidus. */
  lemma {:induction false} SolidusIsEscaped(v: Value, level: nat, st: Style)
    requires Writable(v) && R.AllWs(st.indent)
    ensures Text(v, level, WithSolidus(st, true)) == Slashed(Text(v, level, WithSolidus(st, false)))
    decreases v, 0
  {
    hide ElemsText, MembersText, Slashed, Break, IntText, StringText;
    var no := WithSolidus(st, false);
    match v {
      case Arr(elems) =>
        SlashedSame([OPEN_BRACKET]);
        SlashedSame([CLOSE_BRACKET]);
        SlashedConcat([OPEN_BRACKET], if elems == [] then [CLOSE_BRACKET] else ElemsText(elems, level, no));
        if elems != [] { ElemsSolidus(elems, level, st); }
      case Obj(members) =>
        SlashedSame([OPEN_BRACE]);
        SlashedSame([CLOSE_BRACE]);
        SlashedConcat([OPEN_BRACE], if members == [] then [CLOSE_BRACE] else MembersText(members, level, no));
        if members != [] { MembersSolidus(members, level, st); }
      case _ => SlashedScalar(v, level, st);
    }
  }

  lemma {:induction false} ElemsSolidus(elems: seq<Value>, level: nat, st: Style)
    requires elems != [] && AllWritable(elems) && R.AllWs(st.indent)
    ensures ElemsText(elems, level, WithSolidus(st, true)) == Slashed(ElemsText(elems, level, WithSolidus(st, false)))
    decreases elems, 1
  {
    hide Slashed, Break, Text, ElemsText;
    var no, yes := WithSolidus(st, false), WithSolidus(st, true);
    var b, t, tail := Break(level + 1, no), Text(elems[0], level + 1, no), R.ElemsTail(elems, level, no);
    SolidusIsEscaped(elems[0], level + 1, st);
    SlashedBreak(level + 1, no);
    SlashedBreak(level, no);
    SameBreak(level, st);
    SameBreak(level + 1, st);
    R.ElemsTextIs(elems, level, no);
    R.ElemsTextIs(elems, level, yes);
    SlashedConcat(b, t + tail);
    SlashedConcat(t, tail);
    if |elems| == 1 {
      SlashedConcat(Break(level, no), [CLOSE_BRACKET]);
      SlashedSame([CLOSE_BRACKET]);
    } else {
      ElemsSolidus(elems[1..], level, st);
      SlashedConcat([COMMA], ElemsText(elems[1..], level, no));
      SlashedSame([COMMA]);
    }
  }

  lemma SameBreak(level: nat, st: Style)
    ensures Break(level, WithSolidus(st, false)) == Break(level, WithSolidus(st, true))
    ensures ColonSpace(WithSolidus(st, false)) == ColonSpace(WithSolidus(st, true))
  {
  }

  lemma {:induction false} MembersSolidus(members: seq<Member>, level: nat, st: Style)
    requires members != [] && MembersWritable(members) && R.AllWs(st.indent)
    ensures MembersText(members, level, WithSolidus(st, true))
         == Slashed(MembersText(members, level, WithSolidus(st, false)))
    decreases members, 1
  {
    hide Slashed, Break, Text, MembersText, StringText, ColonSpace;
    var no, yes := WithSolidus(st, false), WithSolidus(st, true);
    var b, k, c, t, tail := Break(level + 1, no), StringText(members[0].key, no), ColonSpace(no),
                            Text(members[0].value, level + 1, no), R.MembersTail(members, level, no);
    SolidusIsEscaped(members[0].value, level + 1, st);
    SlashedString(members[0].key, st);
    SlashedBreak(level + 1, no);
    SlashedBreak(level, no);
    SameBreak(level, st);
    SameBreak(level + 1, st);
    R.MembersTextIs(members, level, no);
    R.MembersTextIs(members, level, yes);
    SlashedConcat(b, k + ([COLON] + (c + (t + tail))));
    SlashedConcat(k, [COLON] + (c + (t + tail)));
    SlashedConcat([COLON], c + (t + tail));
    SlashedConcat(c, t + tail);
    SlashedConcat(t, tail);
    SlashedSame([COLON]);
    if |members| == 1 {
      SlashedConcat(Break(level, no), [CLOSE_BRACE]);
      SlashedSame([CLOSE_BRACE]);
    } else {
      MembersSolidus(members[1..], level, st);
      SlashedConcat([COMMA], MembersText(members[1..], level, no));
      SlashedSame([COMMA]);
    }
  }
}
