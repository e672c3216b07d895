/**
 The round trip: parsing what the generator writes for a value gives the value
 back, with the same key order, in every style whose indent is white space.
 */
module JsonRoundTrip {
  import opened Octets
  import opened JsonLex
  import opened JsonStream
  import opened JsonParse
  import opened JsonUtf
  import opened JsonText

  // ---------------------------------------------------------------- strings

  lemma {:induction false} EscapeConcat(a: Bytes, b: Bytes, st: Style)
    ensures Escape(a + b, st) == Escape(a, st) + Escape(b, st)
  {
    if a == [] {
      assert a + b == b;
    } else {
      assert (a + b)[1..] == a[1..] + b;
      EscapeConcat(a[1..], b, st);
    }
  }

  lemma {:induction false} EscapeHigh(s: Bytes, st: Style)
    requires forall i :: 0 <= i < |s| ==> s[i] >= 0x80
    ensures Escape(s, st) == s
  {
    if s != [] {
      EscapeHigh(s[1..], st);
      assert s == [s[0]] + s[1..];
    }
  }

  lemma HexRound(n: int)
    requires 0 <= n < 16
    ensures HexValue(HexDigit(n)) == n
  {
  }

  lemma EscapedAscii(b: Byte, rest: Bytes, st: Style)
    requires b < 0x80
    ensures var s := EscapeByte(b, st);
            s != [] && s[0] != QUOTE && Element(s + rest, true) == Ok([b], |s|)
  {
    var s := EscapeByte(b, st);
    if b < 0x20 && |s| == 6 {
      HexRound(b / 16);
      HexRound(b % 16);
      assert (s + rest)[2..6] == s[2..6];
      assert Hex4(s[2..6]) == b;
    }
  }

  /** One code point, encoded and escaped, is read back as one element. */
  lemma EscapedPoint(code: int, rest: Bytes, st: Style)
    requires IsScalar(code)
    ensures var s := Escape(EncodePoint(code), st);
            s != [] && s[0] != QUOTE && Element(s + rest, true) == Ok(UnitsOf(code), |s|)
  {
    var e := EncodePoint(code);
    if code < 0x80 {
      assert e[1..] == [] && Escape(e[1..], st) == [];
      assert Escape(e, st) == EscapeByte(code, st);
      EscapedAscii(code, rest, st);
    } else {
      EscapeHigh(e, st);
      ReadsBack(code, rest);
    }
  }

  lemma {:induction false} EscapedString(units: Units, rest: Bytes, st: Style)
    requires WellFormed(units)
    ensures var s := Escape(ToUtf8(units).value, st);
            StringBody(s + ([QUOTE] + rest), true) == Ok(units, |s| + 1)
    decreases |units|
  {
    hide Element, EncodePoint, NextPoint, UnitsOf, EscapeByte;
    var tail := [QUOTE] + rest;
    if units == [] {
      assert Escape([], st) + tail == tail;
      QuoteCloses(tail);
    } else {
      var r := NextPoint(units);
      UnitsWriteBack(units);
      var more := ToUtf8(units[r.used..]).value;
      var head, inner := Escape(EncodePoint(r.value), st), Escape(more, st);
      EscapeConcat(EncodePoint(r.value), more, st);
      EscapedPoint(r.value, inner + tail, st);
      EscapedString(units[r.used..], rest, st);
      assert head + inner + tail == head + (inner + tail);
      assert (head + (inner + tail))[|head|..] == inner + tail;
      assert units == units[..r.used] + units[r.used..];
      BodySplits(head, inner + tail, UnitsOf(r.value), units[r.used..], |inner| + 1);
    }
  }

  lemma QuoteCloses(s: Bytes)
    requires s != [] && s[0] == QUOTE
    ensures StringBody(s, true) == Ok([], 1)
  {
  }

  lemma BodySplits(head: Bytes, tail: Bytes, first: Units, more: Units, n: nat)
    requires head != [] && head[0] != QUOTE && Element(head + tail, true) == Ok(first, |head|)
    requires StringBody(tail, true) == Ok(more, n)
    ensures StringBody(head + tail, true) == Ok(first + more, |head| + n)
  {
    assert (head + tail)[0] == head[0] && (head + tail)[|head|..] == tail;
  }

  /** A written string, from its opening quote. */
  lemma StringBack(units: Units, rest: Bytes, st: Style)
    requires WellFormed(units)
    ensures var s := StringText(units, st);
            |s| >= 2 && s[0] == QUOTE && StringBody((s + rest)[1..], true) == Ok(units, |s| - 1)
  {
    hide Escape, StringBody, ToUtf8;
    var body := Escape(ToUtf8(units).value, st);
    EscapedString(units, rest, st);
    assert (StringText(units, st) + rest)[1..] == body + ([QUOTE] + rest);
  }

  // ---------------------------------------------------------------- numbers

  lemma {:induction false} DigitsAre(n: nat)
    ensures |Digits(n)| >= 1 && Decimal(Digits(n)) == n
    ensures forall i :: 0 <= i < |Digits(n)| ==> IsDigit(Digits(n)[i])
    ensures Digits(n)[0] == ZERO ==> n == 0 && |Digits(n)| == 1
  {
    if n >= 10 {
      DigitsAre(n / 10);
      var d := Digits(n);
      assert d[..|d| - 1] == Digits(n / 10);
    } else {
      assert Digits(n)[..0] == [];
    }
  }

  lemma {:induction false} DigitsEndIs(s: Bytes, i: nat, e: nat)
    requires i <= e <= |s| && (forall j :: i <= j < e ==> IsDigit(s[j])) && (e < |s| ==> !IsDigit(s[e]))
    ensures DigitsEnd(s, i) == e
    decreases e - i
  {
    if i < e { DigitsEndIs(s, i + 1, e); }
  }

  lemma IntExtent(i: int, rest: Bytes)
    requires Follows(rest)
    ensures NumberExtent(IntText(i) + rest) == Extent(|IntText(i)|, |IntText(i)|)
  {
    hide FractionPart, ExponentPart, DigitsEnd, Digits;
    var n := if i < 0 then -i else i;
    var k := if i < 0 then 1 else 0;
    var s := IntText(i) + rest;
    var e := |IntText(i)|;
    DigitsAre(n);
    assert forall j :: k <= j < e ==> s[j] == Digits(n)[j - k];
    if e < |s| { assert s[e] == rest[0]; }
    DigitsEndIs(s, k, e);
    assert SignLength(s) == k;
    assert IntegerPart(s, k) == At(e);
    EndsThere(s, e);
  }

  /** Neither a fraction nor an exponent starts at a delimiter. */
  lemma EndsThere(s: Bytes, e: nat)
    requires e <= |s| && (e < |s| ==> IsDelimiter(s[e]))
    ensures FractionPart(s, e) == At(e) && ExponentPart(s, e) == At(e)
  {
  }

  lemma IntBack(i: int, rest: Bytes, inRange: Bytes -> bool)
    requires FitsInt64(i) && Follows(rest)
    ensures PlainNumber(IntText(i) + rest, inRange) == Ok(Int(i), |IntText(i)|)
    ensures IntText(i) != [] && (IntText(i)[0] == MINUS || IsDigit(IntText(i)[0]))
  {
    hide NumberExtent, Digits, Decimal;
    IntExtent(i, rest);
    DigitsAre(if i < 0 then -i else i);
    var t := IntText(i);
    assert (t + rest)[..|t|] == t;
    if i < 0 { assert t[1..] == Digits(-i); }
  }

  // ---------------------------------------------------------------- white space

  predicate AllWs(s: Bytes) {
    forall i :: 0 <= i < |s| ==> IsWs(s[i])
  }

  lemma {:induction false} RepeatWs(s: Bytes, n: nat)
    requires AllWs(s)
    ensures AllWs(Repeat(s, n))
  {
    if n > 0 { RepeatWs(s, n - 1); }
  }

  lemma BreakWs(level: nat, st: Style)
    requires AllWs(st.indent)
    ensures AllWs(Break(level, st)) && AllWs(ColonSpace(st))
  {
    RepeatWs(st.indent, level);
  }

  lemma SkipAll(w: Bytes, t: Bytes)
    requires AllWs(w)
    ensures WsCount(w + t) == |w| + WsCount(t)
  {
    WsStable(w, t);
    assert WsCount(w) == |w|;
  }

  /** White space, then a byte that is not. */
  lemma NextAt(w: Bytes, b: Byte, rest: Bytes)
    requires AllWs(w) && !IsWs(b)
    ensures var s := w + ([b] + rest);
            && WsCount(s) == |w| && (forall c :: NextIs(s, c) <==> c == b) && AfterNext(s) == rest
  {
    hide WsCount;
    SkipAll(w, [b] + rest);
    FirstNotWs([b] + rest);
  }

  lemma FirstNotWs(s: Bytes)
    requires s != [] && !IsWs(s[0])
    ensures WsCount(s) == 0
  {
  }

  lemma ValueAfterWs(w: Bytes, t: Bytes, inRange: Bytes -> bool)
    requires AllWs(w)
    ensures ParseValue(w + t, inRange) == Shift(ParseValue(t, inRange), |w|)
  {
    hide ParseValue, WsCount;
    SkipAll(w, t);
    ValueSkips(w + t, inRange);
    ValueSkips(t, inRange);
    assert (w + t)[|w| + WsCount(t)..] == t[WsCount(t)..];
  }

  // ---------------------------------------------------------------- values

  lemma FollowsBreak(level: nat, st: Style, b: Byte, rest: Bytes)
    requires AllWs(st.indent) && IsDelimiter(b)
    ensures Follows(Break(level, st) + ([b] + rest))
  {
    BreakWs(level, st);
    var s := Break(level, st) + ([b] + rest);
    if Break(level, st) == [] { assert s == [b] + rest; } else { assert s[0] == Break(level, st)[0]; }
  }

  lemma LiteralBack(text: Bytes, v: Value, rest: Bytes)
    requires text != []
    ensures Literal(text + rest, true, text, v) == Ok(v, |text|)
  {
  }

  lemma ScalarBack(v: Value, level: nat, rest: Bytes, st: Style, inRange: Bytes -> bool)
    requires Writable(v) && !v.Arr? && !v.Obj? && Follows(rest)
    ensures ParseValue(Text(v, level, st) + rest, inRange) == Ok(v, |Text(v, level, st)|)
  {
    hide StringBody, PlainNumber, WsCount, Literal, StringText, IntText;
    var t := Text(v, level, st);
    var s := t + rest;
    match v {
      case Null => LiteralBack(NULL_TEXT, Null, rest);
      case Bool(b) => LiteralBack(t, v, rest);
      case Int(i) => IntBack(i, rest, inRange);
      case Str(units) => StringBack(units, rest, st);
    }
    assert s[0] == t[0];
    FirstNotWs(s);
    assert s[0..] == s;
  }

  /** The first byte written for a value is neither white space nor a closing bracket. */
  lemma TextStarts(v: Value, level: nat, st: Style)
    requires Writable(v)
    ensures var t := Text(v, level, st); t != [] && !IsWs(t[0]) && t[0] != CLOSE_BRACKET
  {
    hide Digits, Escape, ElemsText, MembersText;
    if v.Int? { DigitsAre(if v.i < 0 then -v.i else v.i); }
  }

  /** What stands after an element. */
  function ElemsTail(elems: seq<Value>, level: nat, st: Style): Bytes
    requires elems != [] && AllWritable(elems)
  {
    if |elems| == 1 then Break(level, st) + [CLOSE_BRACKET] else [COMMA] + ElemsText(elems[1..], level, st)
  }

  lemma ElemsTextIs(elems: seq<Value>, level: nat, st: Style)
    requires elems != [] && AllWritable(elems)
    ensures ElemsText(elems, level, st)
         == Break(level + 1, st) + (Text(elems[0], level + 1, st) + ElemsTail(elems, level, st))
  {
    hide Break, Text;
  }

  lemma ElemsSplit(elems: seq<Value>, level: nat, rest: Bytes, st: Style)
    requires elems != [] && AllWritable(elems)
    ensures ElemsText(elems, level, st) + rest
         == Break(level + 1, st) + (Text(elems[0], level + 1, st) + (ElemsTail(elems, level, st) + rest))
    ensures |ElemsText(elems, level, st)|
         == |Break(level + 1, st)| + |Text(elems[0], level + 1, st)| + |ElemsTail(elems, level, st)|
  {
    hide Break, Text, ElemsTail;
    var b, t, tail := Break(level + 1, st), Text(elems[0], level + 1, st), ElemsTail(elems, level, st);
    ElemsTextIs(elems, level, st);
    Assoc(b, t + tail, rest);
    Assoc(t, tail, rest);
  }

  lemma TailSplit(elems: seq<Value>, level: nat, rest: Bytes, st: Style)
    requires elems != [] && AllWritable(elems) && AllWs(st.indent)
    ensures Follows(ElemsTail(elems, level, st) + rest)
    ensures ElemsTail(elems, level, st) + rest ==
            if |elems| == 1 then Break(level, st) + ([CLOSE_BRACKET] + rest)
            else [] + ([COMMA] + (ElemsText(elems[1..], level, st) + rest))
  {
    hide Break, ElemsText;
    if |elems| == 1 {
      assert ElemsTail(elems, level, st) + rest == Break(level, st) + ([CLOSE_BRACKET] + rest);
      FollowsBreak(level, st, CLOSE_BRACKET, rest);
    }
  }

  /** An array's text does not look like an empty array. */
  lemma ElemsOpen(elems: seq<Value>, level: nat, rest: Bytes, st: Style)
    requires elems != [] && AllWritable(elems) && AllWs(st.indent)
    ensures !NextIs(ElemsText(elems, level, st) + rest, CLOSE_BRACKET)
  {
    hide Break, Text, ElemsTail, WsCount, ElemsText;
    ElemsSplit(elems, level, rest, st);
    BreakWs(level + 1, st);
    TextStarts(elems[0], level + 1, st);
    var t := Text(elems[0], level + 1, st);
    var tail := ElemsTail(elems, level, st) + rest;
    assert t + tail == [t[0]] + (t[1..] + tail);
    NextAt(Break(level + 1, st), t[0], t[1..] + tail);
  }

  /** One element and what follows it. */
  lemma ElemBack(elems: seq<Value>, level: nat, rest: Bytes, st: Style, inRange: Bytes -> bool)
    requires elems != [] && AllWritable(elems) && AllWs(st.indent)
    requires var tail := ElemsTail(elems, level, st) + rest; var t := Text(elems[0], level + 1, st);
             ParseValue(t + tail, inRange) == Ok(elems[0], |t|)
    ensures var s := ElemsText(elems, level, st) + rest; var r := ParseValue(s, inRange);
            && r == Ok(elems[0], |Break(level + 1, st)| + |Text(elems[0], level + 1, st)|)
            && s[r.used..] == ElemsTail(elems, level, st) + rest
  {
    hide Break, Text, ElemsText, ElemsTail, ParseValue;
    var t, tail := Text(elems[0], level + 1, st), ElemsTail(elems, level, st) + rest;
    ElemsSplit(elems, level, rest, st);
    BreakWs(level + 1, st);
    ValueAfterWs(Break(level + 1, st), t + tail, inRange);
  }

  /** The last element, and the bracket that closes the array. */
  lemma LastElemBack(elems: seq<Value>, level: nat, rest: Bytes, st: Style, done: seq<Value>, inRange: Bytes -> bool)
    requires |elems| == 1 && AllWritable(elems) && AllWs(st.indent)
    requires var tail := ElemsTail(elems, level, st) + rest; var t := Text(elems[0], level + 1, st);
             ParseValue(t + tail, inRange) == Ok(elems[0], |t|)
    ensures ParseElems(ElemsText(elems, level, st) + rest, done, inRange)
         == Ok(done + elems, |ElemsText(elems, level, st)|)
  {
    hide Break, Text, ElemsText, ParseValue, ParseElems, WsCount, NextIs, AfterNext, AllWritable;
    TailSplit(elems, level, rest, st);
    ElemBack(elems, level, rest, st, inRange);
    ElemsUnfold(ElemsText(elems, level, st) + rest, done, inRange);
    ElemsSplit(elems, level, rest, st);
    BreakWs(level, st);
    NextAt(Break(level, st), CLOSE_BRACKET, rest);
    assert elems == [elems[0]];
  }

  /** Any other element, and the comma behind it. */
  lemma NextElemBack(elems: seq<Value>, level: nat, rest: Bytes, st: Style, done: seq<Value>, inRange: Bytes -> bool)
    requires |elems| > 1 && AllWritable(elems) && AllWritable(elems[1..]) && AllWs(st.indent)
    requires var tail := ElemsTail(elems, level, st) + rest; var t := Text(elems[0], level + 1, st);
             ParseValue(t + tail, inRange) == Ok(elems[0], |t|)
    requires ParseElems(ElemsText(elems[1..], level, st) + rest, done + [elems[0]], inRange)
          == Ok(done + [elems[0]] + elems[1..], |ElemsText(elems[1..], level, st)|)
    ensures ParseElems(ElemsText(elems, level, st) + rest, done, inRange)
         == Ok(done + elems, |ElemsText(elems, level, st)|)
  {
    hide Break, Text, ElemsText, ParseValue, ParseElems, WsCount, NextIs, AfterNext, AllWritable;
    TailSplit(elems, level, rest, st);
    ElemBack(elems, level, rest, st, inRange);
    ElemsUnfold(ElemsText(elems, level, st) + rest, done, inRange);
    ElemsSplit(elems, level, rest, st);
    NextAt([], COMMA, ElemsText(elems[1..], level, st) + rest);
    assert done + [elems[0]] + elems[1..] == done + elems;
  }

  lemma {:induction false} ElemsBack(elems: seq<Value>, level: nat, rest: Bytes, st: Style, done: seq<Value>,
                                     inRange: Bytes -> bool)
    requires elems != [] && AllWritable(elems) && AllWs(st.indent)
    ensures ParseElems(ElemsText(elems, level, st) + rest, done, inRange)
         == Ok(done + elems, |ElemsText(elems, level, st)|)
    decreases elems
  {
    hide Break, Text, ElemsText, ElemsTail, ParseValue, ParseElems, Follows;
    TailSplit(elems, level, rest, st);
    ValueBack(elems[0], level + 1, ElemsTail(elems, level, st) + rest, st, inRange);
    if |elems| == 1 {
      LastElemBack(elems, level, rest, st, done, inRange);
    } else {
      ElemsBack(elems[1..], level, rest, st, done + [elems[0]], inRange);
      NextElemBack(elems, level, rest, st, done, inRange);
    }
  }

  // ---------------------------------------------------------------- objects

  function MembersTail(members: seq<Member>, level: nat, st: Style): Bytes
    requires members != [] && MembersWritable(members)
  {
    if |members| == 1 then Break(level, st) + [CLOSE_BRACE] else [COMMA] + MembersText(members[1..], level, st)
  }

  /** The value of a member and what stands after it. */
  function ValueOn(members: seq<Member>, level: nat, rest: Bytes, st: Style): Bytes
    requires members != [] && MembersWritable(members)
  {
    Text(members[0].value, level + 1, st) + (MembersTail(members, level, st) + rest)
  }

  lemma MembersTextIs(members: seq<Member>, level: nat, st: Style)
    requires members != [] && MembersWritable(members)
    ensures MembersText(members, level, st)
         == Break(level + 1, st) + (StringText(members[0].key, st) + ([COLON] + (ColonSpace(st) +
            (Text(members[0].value, level + 1, st) + MembersTail(members, level, st)))))
  {
    hide Break, Text, StringText, ColonSpace;
  }

  lemma MembersSplit(members: seq<Member>, level: nat, rest: Bytes, st: Style)
    requires members != [] && MembersWritable(members)
    ensures MembersText(members, level, st) + rest
         == Break(level + 1, st) + (StringText(members[0].key, st) + ([COLON] + (ColonSpace(st) +
            ValueOn(members, level, rest, st))))
    ensures |MembersText(members, level, st)| == |Break(level + 1, st)| + |StringText(members[0].key, st)| + 1
          + |ColonSpace(st)| + |Text(members[0].value, level + 1, st)| + |MembersTail(members, level, st)|
  {
    hide Break, Text, StringText, ColonSpace, MembersTail;
    var b, k, c, t, tail := Break(level + 1, st), StringText(members[0].key, st), ColonSpace(st),
                            Text(members[0].value, level + 1, st), MembersTail(members, level, st);
    MembersTextIs(members, level, st);
    Assoc(b, k + ([COLON] + (c + (t + tail))), rest);
    Assoc(k, [COLON] + (c + (t + tail)), rest);
    Assoc([COLON], c + (t + tail), rest);
    Assoc(c, t + tail, rest);
    Assoc(t, tail, rest);
  }

  lemma MembersTailSplit(members: seq<Member>, level: nat, rest: Bytes, st: Style)
    requires members != [] && MembersWritable(members) && AllWs(st.indent)
    ensures Follows(MembersTail(members, level, st) + rest)
    ensures MembersTail(members, level, st) + rest ==
            if |members| == 1 then Break(level, st) + ([CLOSE_BRACE] + rest)
            else [] + ([COMMA] + (MembersText(members[1..], level, st) + rest))
  {
    hide Break, MembersText;
    if |members| == 1 {
      assert MembersTail(members, level, st) + rest == Break(level, st) + ([CLOSE_BRACE] + rest);
      FollowsBreak(level, st, CLOSE_BRACE, rest);
    }
  }

  /** A key with its colon, read back. */
  lemma KeyBack(w: Bytes, key: Units, rest: Bytes, st: Style)
    requires AllWs(w) && WellFormed(key)
    ensures var k := StringText(key, st); var s := w + (k + ([COLON] + rest));
            && NextIs(s, QUOTE) && !NextIs(s, CLOSE_BRACE)
            && KeyPart(s) == Ok(key, |w| + |k| + 1) && s[|w| + |k| + 1..] == rest
  {
    hide WsCount, StringBody, StringText, NextIs, AfterNext, IsDelimiter, IsWs;
    var k := StringText(key, st);
    StringBack(key, [COLON] + rest, st);
    KeySlices(w, k, rest);
    NextAt(w, QUOTE, (k + ([COLON] + rest))[1..]);
    NextAt([], COLON, rest);
  }

  lemma KeySlices(w: Bytes, k: Bytes, rest: Bytes)
    requires |k| >= 2 && k[0] == QUOTE
    ensures var t := k + ([COLON] + rest);
            && t == [QUOTE] + t[1..] && t[1..][|k| - 1..] == [] + ([COLON] + rest)
            && (w + t)[|w| + |k| + 1..] == rest && !IsWs(QUOTE) && !IsWs(COLON)
  {
    var t := k + ([COLON] + rest);
    assert t[1..][|k| - 1..] == t[|k|..];
  }

  lemma MembersOpen(members: seq<Member>, level: nat, rest: Bytes, st: Style)
    requires members != [] && MembersWritable(members) && AllWs(st.indent)
    ensures !NextIs(MembersText(members, level, st) + rest, CLOSE_BRACE)
  {
    hide Break, MembersText, WsCount, StringText, ValueOn, NextIs, KeyPart;
    MembersSplit(members, level, rest, st);
    BreakWs(level + 1, st);
    KeyBack(Break(level + 1, st), members[0].key, ColonSpace(st) + ValueOn(members, level, rest, st), st);
  }

  /** One member and what follows it. */
  lemma MemberBack(members: seq<Member>, level: nat, rest: Bytes, st: Style, inRange: Bytes -> bool)
    requires members != [] && MembersWritable(members) && AllWs(st.indent)
    requires ParseValue(ValueOn(members, level, rest, st), inRange)
          == Ok(members[0].value, |Text(members[0].value, level + 1, st)|)
    ensures var s := MembersText(members, level, st) + rest; var r := MemberPart(s, inRange);
            && r == Ok(members[0], |MembersText(members, level, st)| - |MembersTail(members, level, st)|)
            && s[r.used..] == MembersTail(members, level, st) + rest
  {
    hide Break, MembersText, WsCount, StringText, Text, ParseValue, NextIs, KeyPart, MembersTail;
    var value := ValueOn(members, level, rest, st);
    MembersSplit(members, level, rest, st);
    BreakWs(level + 1, st);
    KeyBack(Break(level + 1, st), members[0].key, ColonSpace(st) + value, st);
    ValueAfterWs(ColonSpace(st), value, inRange);
  }

  lemma {:induction false} MembersBack(members: seq<Member>, level: nat, rest: Bytes, st: Style, done: seq<Member>,
                                       inRange: Bytes -> bool)
    requires members != [] && MembersWritable(members) && DistinctKeys(done + members) && AllWs(st.indent)
    ensures ParseMembers(MembersText(members, level, st) + rest, done, inRange)
         == Ok(done + members, |MembersText(members, level, st)|)
    decreases members
  {
    hide Break, Text, MembersText, ParseValue, ParseMembers, WsCount, NextIs, AfterNext, MemberPart, SetMember,
      Follows, DistinctKeys, Writable;
    var s := MembersText(members, level, st) + rest;
    MembersTailSplit(members, level, rest, st);
    ValueBack(members[0].value, level + 1, MembersTail(members, level, st) + rest, st, inRange);
    MemberBack(members, level, rest, st, inRange);
    MembersUnfold(s, done, inRange);
    FreshKey(done, members);
    SetFresh(done, members[0].key, members[0].value);
    assert done + members == done + [members[0]] + members[1..];
    if |members| == 1 {
      BreakWs(level, st);
      NextAt(Break(level, st), CLOSE_BRACE, rest);
      assert members == [members[0]];
      assert |MembersTail(members, level, st)| == |Break(level, st)| + 1;
    } else {
      NextAt([], COMMA, MembersText(members[1..], level, st) + rest);
      MembersBack(members[1..], level, rest, st, done + [members[0]], inRange);
    }
  }

  lemma FreshKey(done: seq<Member>, members: seq<Member>)
    requires members != [] && DistinctKeys(done + members)
    ensures forall i :: 0 <= i < |done| ==> done[i].key != members[0].key
  {
    var all := done + members;
    forall i | 0 <= i < |done| ensures done[i].key != members[0].key {
      assert all[i] == done[i] && all[|done|] == members[0];
    }
  }

  lemma ArrayBack(elems: seq<Value>, level: nat, rest: Bytes, st: Style, inRange: Bytes -> bool)
    requires Writable(Arr(elems)) && AllWs(st.indent)
    requires elems != [] ==>
               ParseElems(ElemsText(elems, level, st) + rest, [], inRange) ==
               Ok([] + elems, |ElemsText(elems, level, st)|)
    ensures ParseValue(Text(Arr(elems), level, st) + rest, inRange) == Ok(Arr(elems), |Text(Arr(elems), level, st)|)
  {
    hide ParseElems, ParseMembers, WsCount, PlainScalar, StringText, IntText, ElemsText, MembersText;
    var t := Text(Arr(elems), level, st);
    if elems == [] {
      assert t + rest == [] + ([OPEN_BRACKET] + ([] + ([CLOSE_BRACKET] + rest)));
      NextAt([], OPEN_BRACKET, [] + ([CLOSE_BRACKET] + rest));
      NextAt([], CLOSE_BRACKET, rest);
    } else {
      var inner := ElemsText(elems, level, st);
      assert t + rest == [] + ([OPEN_BRACKET] + (inner + rest));
      NextAt([], OPEN_BRACKET, inner + rest);
      assert [] + elems == elems;
      ElemsOpen(elems, level, rest, st);
    }
  }

  lemma ObjectBack(members: seq<Member>, level: nat, rest: Bytes, st: Style, inRange: Bytes -> bool)
    requires Writable(Obj(members)) && AllWs(st.indent)
    requires members != [] ==>
               ParseMembers(MembersText(members, level, st) + rest, [], inRange) ==
               Ok([] + members, |MembersText(members, level, st)|)
    ensures ParseValue(Text(Obj(members), level, st) + rest, inRange)
         == Ok(Obj(members), |Text(Obj(members), level, st)|)
  {
    hide ParseElems, ParseMembers, WsCount, PlainScalar, StringText, IntText, ElemsText, MembersText;
    var t := Text(Obj(members), level, st);
    if members == [] {
      assert t + rest == [] + ([OPEN_BRACE] + ([] + ([CLOSE_BRACE] + rest)));
      NextAt([], OPEN_BRACE, [] + ([CLOSE_BRACE] + rest));
      NextAt([], CLOSE_BRACE, rest);
    } else {
      var inner := MembersText(members, level, st);
      assert t + rest == [] + ([OPEN_BRACE] + (inner + rest));
      NextAt([], OPEN_BRACE, inner + rest);
      assert [] + members == members;
      MembersOpen(members, level, rest, st);
    }
  }

  lemma {:induction false} ValueBack(v: Value, level: nat, rest: Bytes, st: Style, inRange: Bytes -> bool)
    requires Writable(v) && AllWs(st.indent) && Follows(rest)
    ensures ParseValue(Text(v, level, st) + rest, inRange) == Ok(v, |Text(v, level, st)|)
    decreases v
  {
    hide ParseValue, ParseElems, ParseMembers, Text, ElemsText, MembersText;
    match v {
      case Arr(elems) =>
        if elems != [] { ElemsBack(elems, level, rest, st, [], inRange); }
        ArrayBack(elems, level, rest, st, inRange);
      case Obj(members) =>
        assert [] + members == members;
        if members != [] { MembersBack(members, level, rest, st, [], inRange); }
        ObjectBack(members, level, rest, st, inRange);
      case _ => ScalarBack(v, level, rest, st, inRange);
    }
  }

  /** Parsing what was written for a value gives the value back. */
  lemma RoundTrip(v: Value, st: Style, inRange: Bytes -> bool)
    requires Writable(v) && AllWs(st.indent)
    ensures Parse(Text(v, 0, st), inRange) == Some(v)
  {
    hide Text, ParseValue;
    ValueBack(v, 0, [], st, inRange);
    assert Text(v, 0, st) + [] == Text(v, 0, st);
  }

  /** So does streaming it in any pieces. */
  lemma StreamedRoundTrip(v: Value, st: Style, pieces: seq<Bytes>, inRange: Bytes -> bool)
    requires Writable(v) && AllWs(st.indent) && Concat(pieces) == Text(v, 0, st)
    ensures Streamed(pieces, inRange) == Accepted(Some(v))
  {
    hide Text, Streamed;
    RoundTrip(v, st, inRange);
    StreamingAgrees(pieces, inRange);
  }

  /** Two values written alike, in whatever styles, are the same value. */
  lemma TextDetermines(v: Value, w: Value, st: Style, other: Style)
    requires Writable(v) && Writable(w) && AllWs(st.indent) && AllWs(other.indent)
    requires Text(v, 0, st) == Text(w, 0, other)
    ensures v == w
  {
    hide Text;
    RoundTrip(v, st, s => true);
    RoundTrip(w, other, s => true);
  }
}
