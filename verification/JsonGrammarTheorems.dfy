/**
 The one-shot parser against the grammar: it takes a text for a value exactly
 when the grammar writes that text for that value.
 */
module JsonGrammarTheorems {
  import opened Octets
  import opened JsonLex
  import opened JsonStream
  import opened JsonParse
  import opened JsonRoundTrip
  import opened JsonGrammarProofs
  import G = JsonGrammar

  // ---------------------------------------------------------------- what is written is read

  /** `s` is some text of length `|s| - |rest|`, then `rest`. */
  predicate EndsWith(s: Bytes, rest: Bytes) {
    |rest| < |s| && s[|s| - |rest|..] == rest
  }

  lemma EndsOn(head: Bytes, mid: Bytes, rest: Bytes)
    requires EndsWith(mid, rest) || (mid == rest && head != [])
    ensures EndsWith(head + mid, rest)
  {
  }

  lemma BlankIsWs(w: Bytes)
    requires G.Blank(w)
    ensures AllWs(w)
  {
  }

  /** White space and a delimiter may follow a value. */
  lemma FollowsBlank(w: Bytes, b: Byte, rest: Bytes)
    requires G.Blank(w) && IsDelimiter(b)
    ensures Follows(w + ([b] + rest))
  {
    var s := w + ([b] + rest);
    if w == [] { assert s == [b] + rest; } else { assert s[0] == w[0]; }
  }

  /** Neither white space nor a closing bracket or brace. */
  predicate Starts(s: Bytes) {
    s != [] && !IsWs(s[0]) && s[0] != CLOSE_BRACKET && s[0] != CLOSE_BRACE
  }

  /** `s` is read as `doc`, all of it up to `rest`. */
  ghost predicate ReadAs(s: Bytes, doc: G.Doc, rest: Bytes, inRange: Bytes -> bool)
    requires G.DocOk(doc, inRange)
  {
    && EndsWith(s, rest) && Starts(s)
    && ParseValue(s, inRange) == Ok(G.Meaning(doc, inRange), |s| - |rest|)
  }

  lemma ScalarValue(s: Bytes, v: Value, n: nat, inRange: Bytes -> bool)
    requires Starts(s) && s[0] != OPEN_BRACE && s[0] != OPEN_BRACKET && PlainScalar(s, inRange) == Ok(v, n)
    ensures ParseValue(s, inRange) == Ok(v, n)
  {
    hide PlainScalar;
    FirstNotWs(s);
    assert s[0..] == s;
  }

  lemma WordRead(doc: G.Doc, rest: Bytes, inRange: Bytes -> bool)
    requires doc.NullWord? || doc.TrueWord? || doc.FalseWord?
    ensures ReadAs(G.DocOn(doc, rest, inRange), doc, rest, inRange)
  {
    hide ParseValue, StringBody, Number;
    var s := G.DocOn(doc, rest, inRange);
    assert EndsWith(s, rest);
    ScalarValue(s, G.Meaning(doc, inRange), |s| - |rest|, inRange);
  }

  lemma NumberRead(doc: G.Doc, rest: Bytes, inRange: Bytes -> bool)
    requires doc.Number? && G.DocOk(doc, inRange) && Follows(rest)
    ensures ReadAs(G.DocOn(doc, rest, inRange), doc, rest, inRange)
  {
    hide ParseValue, PlainNumber, G.NumeralText, G.InRange, ScalarAt;
    var s := G.DocOn(doc, rest, inRange);
    NumeralBack(doc.numeral, rest, inRange);
    NumeralSplits(doc.numeral, rest);
    NumeralStarts(doc.numeral);
    assert s[0] == G.NumeralText(doc.numeral)[0];
    ScalarValue(s, G.Meaning(doc, inRange), |s| - |rest|, inRange);
  }

  lemma NumeralStarts(n: G.Numeral)
    requires G.NumeralOk(n)
    ensures G.NumeralText(n) != [] && (G.NumeralText(n)[0] == MINUS || IsDigit(G.NumeralText(n)[0]))
  {
    hide G.FractionText, G.ExponentText;
  }

  lemma TextRead(doc: G.Doc, rest: Bytes, inRange: Bytes -> bool)
    requires doc.Text? && G.DocOk(doc, inRange)
    ensures ReadAs(G.DocOn(doc, rest, inRange), doc, rest, inRange)
  {
    hide ParseValue, StringBody, G.CharsOk, G.CharsOn, G.CharsUnits;
    var body := G.CharsOn(doc.chars, rest);
    var s := G.DocOn(doc, rest, inRange);
    CharsBack(doc.chars, rest);
    EndsOn([QUOTE], body, rest);
    assert s[1..] == body;
    ScalarValue(s, G.Meaning(doc, inRange), |s| - |rest|, inRange);
  }

  /** A bracket, white space and the bracket that closes it. */
  lemma EmptyRead(doc: G.Doc, rest: Bytes, inRange: Bytes -> bool)
    requires G.DocOk(doc, inRange) && ((doc.List? && doc.items == []) || (doc.Table? && doc.fields == []))
    ensures ReadAs(G.DocOn(doc, rest, inRange), doc, rest, inRange)
  {
    hide ParseElems, ParseMembers, WsCount, NextIs, AfterNext, ParseValue;
    var close := if doc.List? then CLOSE_BRACKET else CLOSE_BRACE;
    var s := G.DocOn(doc, rest, inRange);
    BlankIsWs(doc.blank);
    NextAt(doc.blank, close, rest);
    ContainerValue(s, inRange);
    assert s[1..] == doc.blank + ([close] + rest);
    assert EndsWith(s, rest);
    assert G.Meaning(doc, inRange) == if doc.List? then Arr([]) else Obj([]);
  }

  lemma ContainerValue(s: Bytes, inRange: Bytes -> bool)
    requires s != [] && (s[0] == OPEN_BRACKET || s[0] == OPEN_BRACE)
    ensures ParseValue(s, inRange) ==
            Shift(if s[0] == OPEN_BRACE then ObjectBody(s[1..], inRange) else ArrayBody(s[1..], inRange), 1)
  {
    hide ObjectBody, ArrayBody;
    FirstNotWs(s);
  }

  lemma ListRead(doc: G.Doc, rest: Bytes, inRange: Bytes -> bool)
    requires doc.List? && doc.items != [] && G.DocOk(doc, inRange)
    requires ItemsRead(doc.items, [], rest, inRange)
    ensures ReadAs(G.DocOn(doc, rest, inRange), doc, rest, inRange)
  {
    hide ParseElems, WsCount, NextIs, AfterNext, ParseValue, G.ItemsOn, G.Meanings, G.ItemsOk;
    var s := G.DocOn(doc, rest, inRange);
    var body := G.ItemsOn(doc.items, rest, inRange);
    ContainerValue(s, inRange);
    assert s[1..] == body;
    EndsOn([OPEN_BRACKET], body, rest);
    assert [] + G.Meanings(doc.items, inRange) == G.Meanings(doc.items, inRange);
  }

  lemma TableRead(doc: G.Doc, rest: Bytes, inRange: Bytes -> bool)
    requires doc.Table? && doc.fields != [] && G.DocOk(doc, inRange)
    requires FieldsRead(doc.fields, [], rest, inRange)
    ensures ReadAs(G.DocOn(doc, rest, inRange), doc, rest, inRange)
  {
    hide ParseMembers, WsCount, NextIs, AfterNext, ParseValue, G.FieldsOn, G.Members, G.FieldsOk;
    var s := G.DocOn(doc, rest, inRange);
    var body := G.FieldsOn(doc.fields, rest, inRange);
    ContainerValue(s, inRange);
    assert s[1..] == body;
    EndsOn([OPEN_BRACE], body, rest);
  }

  /** The elements of an array are read, and added to those before them. */
  ghost predicate ItemsRead(items: seq<G.Item>, done: seq<Value>, rest: Bytes, inRange: Bytes -> bool)
    requires items != [] && G.ItemsOk(items, inRange)
  {
    var s := G.ItemsOn(items, rest, inRange);
    && EndsWith(s, rest) && !NextIs(s, CLOSE_BRACKET)
    && ParseElems(s, done, inRange) == Ok(done + G.Meanings(items, inRange), |s| - |rest|)
  }

  ghost predicate FieldsRead(fields: seq<G.Field>, done: seq<Member>, rest: Bytes, inRange: Bytes -> bool)
    requires fields != [] && G.FieldsOk(fields, inRange)
  {
    var s := G.FieldsOn(fields, rest, inRange);
    && EndsWith(s, rest) && !NextIs(s, CLOSE_BRACE)
    && ParseMembers(s, done, inRange) == Ok(G.Members(done, fields, inRange), |s| - |rest|)
  }

  /** What stands behind an element: white space, then the bracket, or a comma and the other elements. */
  lemma ItemsTailIs(items: seq<G.Item>, rest: Bytes, inRange: Bytes -> bool)
    requires items != [] && G.ItemsOk(items, inRange)
    ensures var tail := G.ItemsTail(items, rest, inRange); var w := items[0].after;
            && Follows(tail) && WsCount(tail) == |w|
            && (forall c :: NextIs(tail, c) <==> c == if |items| == 1 then CLOSE_BRACKET else COMMA)
            && AfterNext(tail) == if |items| == 1 then rest else G.ItemsOn(items[1..], rest, inRange)
  {
    hide WsCount, NextIs, AfterNext, G.ItemsOn, Follows;
    var b := if |items| == 1 then CLOSE_BRACKET else COMMA;
    var more := if |items| == 1 then rest else G.ItemsOn(items[1..], rest, inRange);
    BlankIsWs(items[0].after);
    NextAt(items[0].after, b, more);
    FollowsBlank(items[0].after, b, more);
  }

  /** An element with the white space before it. */
  lemma ItemRead(items: seq<G.Item>, rest: Bytes, inRange: Bytes -> bool)
    requires items != [] && G.ItemsOk(items, inRange)
    requires var tail := G.ItemsTail(items, rest, inRange);
             ReadAs(G.DocOn(items[0].doc, tail, inRange), items[0].doc, tail, inRange)
    ensures var s := G.ItemsOn(items, rest, inRange); var tail := G.ItemsTail(items, rest, inRange);
            && EndsWith(s, tail) && !NextIs(s, CLOSE_BRACKET) && |tail| < |s| && s[|s| - |tail|..] == tail
            && ParseValue(s, inRange) == Ok(G.Meaning(items[0].doc, inRange), |s| - |tail|)
  {
    hide ParseValue, WsCount, NextIs, AfterNext, G.DocOn, G.ItemsTail, G.Meaning;
    var tail := G.ItemsTail(items, rest, inRange);
    var text := G.DocOn(items[0].doc, tail, inRange);
    BlankIsWs(items[0].before);
    ValueAfterWs(items[0].before, text, inRange);
    EndsOn(items[0].before, text, tail);
    assert text == [text[0]] + text[1..];
    NextAt(items[0].before, text[0], text[1..]);
  }

  lemma MeaningsFirst(items: seq<G.Item>, done: seq<Value>, inRange: Bytes -> bool)
    requires items != [] && G.ItemsOk(items, inRange)
    ensures var v := G.Meaning(items[0].doc, inRange);
            && done + G.Meanings(items, inRange) == done + [v] + G.Meanings(items[1..], inRange)
            && (|items| == 1 ==> done + G.Meanings(items, inRange) == done + [v])
  {
    hide G.Meaning, G.DocOk, G.Blank;
    var v, more := G.Meaning(items[0].doc, inRange), G.Meanings(items[1..], inRange);
    assert G.Meanings(items, inRange) == [v] + more;
    Gather(done, v, more);
  }

  lemma Gather<T>(done: seq<T>, v: T, more: seq<T>)
    ensures done + ([v] + more) == done + [v] + more
    ensures more == [] ==> done + ([v] + more) == done + [v]
  {
  }

  /** The last element, or an element and those behind it. */
  lemma ItemsStep(items: seq<G.Item>, done: seq<Value>, rest: Bytes, inRange: Bytes -> bool)
    requires items != [] && G.ItemsOk(items, inRange)
    requires var tail := G.ItemsTail(items, rest, inRange);
             ReadAs(G.DocOn(items[0].doc, tail, inRange), items[0].doc, tail, inRange)
    requires |items| > 1 ==> ItemsRead(items[1..], done + [G.Meaning(items[0].doc, inRange)], rest, inRange)
    ensures ItemsRead(items, done, rest, inRange)
  {
    hide ParseValue, ParseElems, WsCount, NextIs, AfterNext, G.DocOn, G.ItemsTail, G.ItemsOn, G.Meaning, ReadAs,
      G.Meanings, Follows, G.ItemsOk, G.Blank, G.DocOk, EndsWith;
    var s, tail := G.ItemsOn(items, rest, inRange), G.ItemsTail(items, rest, inRange);
    ItemRead(items, rest, inRange);
    ItemsTailIs(items, rest, inRange);
    ElemsUnfold(s, done, inRange);
    MeaningsFirst(items, done, inRange);
    AfterIs(tail);
    Chain(s, tail, AfterNext(tail), rest);
  }

  lemma AfterIs(s: Bytes)
    requires WsCount(s) < |s|
    ensures AfterNext(s) == s[|s| - |AfterNext(s)|..]
  {
    hide WsCount;
  }

  lemma Suffix(s: Bytes, t: Bytes, u: Bytes)
    requires EndsWith(s, t) && |u| <= |t| && t[|t| - |u|..] == u
    ensures EndsWith(s, u)
  {
  }

  lemma Chain(s: Bytes, tail: Bytes, after: Bytes, rest: Bytes)
    requires EndsWith(s, tail) && |after| <= |tail| && tail[|tail| - |after|..] == after
    requires after == rest || EndsWith(after, rest)
    ensures EndsWith(s, rest)
  {
    Suffix(s, tail, after);
    if after != rest { Suffix(s, after, rest); }
  }

  lemma FieldsTailIs(fields: seq<G.Field>, rest: Bytes, inRange: Bytes -> bool)
    requires fields != [] && G.FieldsOk(fields, inRange)
    ensures var tail := G.FieldsTail(fields, rest, inRange); var w := fields[0].after;
            && Follows(tail) && WsCount(tail) == |w|
            && (forall c :: NextIs(tail, c) <==> c == if |fields| == 1 then CLOSE_BRACE else COMMA)
            && AfterNext(tail) == if |fields| == 1 then rest else G.FieldsOn(fields[1..], rest, inRange)
  {
    hide WsCount, NextIs, AfterNext, G.FieldsOn, Follows;
    var b := if |fields| == 1 then CLOSE_BRACE else COMMA;
    var more := if |fields| == 1 then rest else G.FieldsOn(fields[1..], rest, inRange);
    BlankIsWs(fields[0].after);
    NextAt(fields[0].after, b, more);
    FollowsBlank(fields[0].after, b, more);
  }

  /** A key between white space, and its colon. */
  lemma KeyRead(before: Bytes, key: seq<G.Char>, gap: Bytes, on: Bytes)
    requires G.Blank(before) && G.CharsOk(key) && G.Blank(gap)
    ensures var s := before + ([QUOTE] + G.CharsOn(key, gap + ([COLON] + on)));
            && EndsWith(s, on) && !NextIs(s, CLOSE_BRACE)
            && KeyPart(s) == Ok(G.CharsUnits(key), |s| - |on|)
  {
    hide WsCount, NextIs, AfterNext, G.CharsOn, StringBody, G.CharsUnits, G.CharsOk;
    var mid := gap + ([COLON] + on);
    var chars := G.CharsOn(key, mid);
    BlankIsWs(before);
    BlankIsWs(gap);
    NextAt(before, QUOTE, chars);
    CharsBack(key, mid);
    NextAt(gap, COLON, on);
    EndsOn([QUOTE], chars, mid);
    EndsOn(before, [QUOTE] + chars, mid);
    assert mid[|mid| - |on|..] == on;
    Suffix(before + ([QUOTE] + chars), mid, on);
  }

  /** A member: its key, its colon and its value. */
  lemma FieldRead(fields: seq<G.Field>, rest: Bytes, inRange: Bytes -> bool)
    requires fields != [] && G.FieldsOk(fields, inRange)
    requires var tail := G.FieldsTail(fields, rest, inRange);
             ReadAs(G.DocOn(fields[0].doc, tail, inRange), fields[0].doc, tail, inRange)
    ensures var s := G.FieldsOn(fields, rest, inRange); var tail := G.FieldsTail(fields, rest, inRange);
            && EndsWith(s, tail) && !NextIs(s, CLOSE_BRACE) && |tail| < |s| && s[|s| - |tail|..] == tail
            && MemberPart(s, inRange) ==
               Ok(Member(G.CharsUnits(fields[0].key), G.Meaning(fields[0].doc, inRange)), |s| - |tail|)
  {
    hide ParseValue, WsCount, NextIs, AfterNext, G.DocOn, G.FieldsTail, G.Meaning, KeyPart, G.CharsOn, G.CharsUnits;
    var f := fields[0];
    var s, tail := G.FieldsOn(fields, rest, inRange), G.FieldsTail(fields, rest, inRange);
    var text, on := G.DocOn(f.doc, tail, inRange), G.FieldOn(fields, rest, inRange);
    KeyRead(f.before, f.key, f.gap, on);
    BlankIsWs(f.space);
    ValueAfterWs(f.space, text, inRange);
    EndsOn(f.space, text, tail);
    Suffix(s, on, tail);
  }

  lemma MembersFirst(done: seq<Member>, fields: seq<G.Field>, inRange: Bytes -> bool)
    requires fields != [] && G.FieldsOk(fields, inRange)
    ensures var more := SetMember(done, G.CharsUnits(fields[0].key), G.Meaning(fields[0].doc, inRange));
            && G.Members(done, fields, inRange) == G.Members(more, fields[1..], inRange)
            && (|fields| == 1 ==> G.Members(done, fields, inRange) == more)
  {
    hide G.Meaning, SetMember, G.CharsUnits;
  }

  lemma FieldsStep(fields: seq<G.Field>, done: seq<Member>, rest: Bytes, inRange: Bytes -> bool)
    requires fields != [] && G.FieldsOk(fields, inRange)
    requires var tail := G.FieldsTail(fields, rest, inRange);
             ReadAs(G.DocOn(fields[0].doc, tail, inRange), fields[0].doc, tail, inRange)
    requires |fields| > 1 ==>
               var more := SetMember(done, G.CharsUnits(fields[0].key), G.Meaning(fields[0].doc, inRange));
               FieldsRead(fields[1..], more, rest, inRange)
    ensures FieldsRead(fields, done, rest, inRange)
  {
    hide MemberPart, ParseMembers, WsCount, NextIs, AfterNext, G.DocOn, G.FieldsTail, G.FieldsOn, G.Meaning, ReadAs,
      G.Members, Follows, SetMember, G.CharsUnits, G.FieldsOk, G.DocOk, G.FieldMarksOk, EndsWith;
    var s, tail := G.FieldsOn(fields, rest, inRange), G.FieldsTail(fields, rest, inRange);
    FieldRead(fields, rest, inRange);
    FieldsTailIs(fields, rest, inRange);
    MembersUnfold(s, done, inRange);
    MembersFirst(done, fields, inRange);
    AfterIs(tail);
    Chain(s, tail, AfterNext(tail), rest);
  }

  /** Every written value is read as what it means. */
  lemma {:induction false} DocRead(doc: G.Doc, rest: Bytes, inRange: Bytes -> bool)
    requires G.DocOk(doc, inRange) && Follows(rest)
    ensures ReadAs(G.DocOn(doc, rest, inRange), doc, rest, inRange)
    decreases doc, 0
  {
    hide ReadAs, G.DocOn, G.Meaning, Follows;
    match doc {
      case Number(_) => NumberRead(doc, rest, inRange);
      case Text(_) => TextRead(doc, rest, inRange);
      case List(_, items) =>
        if items == [] {
          EmptyRead(doc, rest, inRange);
        } else {
          AllItemsRead(items, [], rest, inRange);
          ListRead(doc, rest, inRange);
        }
      case Table(_, fields) =>
        if fields == [] {
          EmptyRead(doc, rest, inRange);
        } else {
          AllFieldsRead(fields, [], rest, inRange);
          TableRead(doc, rest, inRange);
        }
      case _ => WordRead(doc, rest, inRange);
    }
  }

  lemma {:induction false} AllItemsRead(items: seq<G.Item>, done: seq<Value>, rest: Bytes, inRange: Bytes -> bool)
    requires items != [] && G.ItemsOk(items, inRange)
    ensures ItemsRead(items, done, rest, inRange)
    decreases items, 0
  {
    hide ReadAs, G.DocOn, G.Meaning, ItemsRead, G.ItemsTail, WsCount, NextIs, AfterNext, Follows;
    ItemsTailIs(items, rest, inRange);
    DocRead(items[0].doc, G.ItemsTail(items, rest, inRange), inRange);
    if |items| > 1 { AllItemsRead(items[1..], done + [G.Meaning(items[0].doc, inRange)], rest, inRange); }
    ItemsStep(items, done, rest, inRange);
  }

  lemma {:induction false} AllFieldsRead(fields: seq<G.Field>, done: seq<Member>, rest: Bytes, inRange: Bytes -> bool)
    requires fields != [] && G.FieldsOk(fields, inRange)
    ensures FieldsRead(fields, done, rest, inRange)
    decreases fields, 0
  {
    hide ReadAs, G.DocOn, G.Meaning, FieldsRead, G.FieldsTail, WsCount, NextIs, AfterNext, Follows, SetMember,
      G.CharsUnits;
    FieldsTailIs(fields, rest, inRange);
    DocRead(fields[0].doc, G.FieldsTail(fields, rest, inRange), inRange);
    if |fields| > 1 {
      var more := SetMember(done, G.CharsUnits(fields[0].key), G.Meaning(fields[0].doc, inRange));
      AllFieldsRead(fields[1..], more, rest, inRange);
    }
    FieldsStep(fields, done, rest, inRange);
  }

  // ---------------------------------------------------------------- what is read is written

  /** White space, the byte that follows it, and the rest. */
  lemma NextSplits(s: Bytes, b: Byte)
    requires NextIs(s, b)
    ensures var w := s[..WsCount(s)]; G.Blank(w) && s == w + ([b] + AfterNext(s))
  {
    hide WsCount;
  }

  /** `doc` is a grammatical writing of what was read. */
  ghost predicate Written(doc: G.Doc, s: Bytes, v: Value, rest: Bytes, inRange: Bytes -> bool) {
    G.DocOk(doc, inRange) && G.Meaning(doc, inRange) == v && s == G.DocOn(doc, rest, inRange)
  }

  lemma ScalarOf(s: Bytes, inRange: Bytes -> bool) returns (doc: G.Doc)
    requires s != [] && PlainScalar(s, inRange).Ok?
    ensures var r := PlainScalar(s, inRange); Written(doc, s, r.value, s[r.used..], inRange)
  {
    hide StringBody, PlainNumber, Number, G.CharsOk, G.CharsUnits, G.CharsOn, G.NumeralOk, G.InRange, G.NumeralText;
    var r := PlainScalar(s, inRange);
    if s[0] == MINUS || IsDigit(s[0]) {
      var n := NumeralOf(s, inRange);
      doc := G.Number(n);
      assert s == s[..r.used] + s[r.used..];
    } else if s[0] == QUOTE {
      var chars := CharsOf(s[1..]);
      doc := G.Text(chars);
      assert s[1..][r.used - 1..] == s[r.used..] && s == [QUOTE] + s[1..];
    } else {
      doc := if s[0] == LOWER_T then G.TrueWord else if s[0] == LOWER_F then G.FalseWord else G.NullWord;
      assert s == s[..r.used] + s[r.used..];
    }
  }

  lemma EmptyMeans(doc: G.Doc, inRange: Bytes -> bool)
    requires ((doc.List? && doc.items == []) || (doc.Table? && doc.fields == [])) && G.Blank(doc.blank)
    ensures G.DocOk(doc, inRange) && G.Meaning(doc, inRange) == if doc.List? then Arr([]) else Obj([])
  {
  }

  lemma EmptyOf(s: Bytes, inRange: Bytes -> bool) returns (doc: G.Doc)
    requires s != [] && (s[0] == OPEN_BRACKET || s[0] == OPEN_BRACE)
    requires NextIs(s[1..], if s[0] == OPEN_BRACE then CLOSE_BRACE else CLOSE_BRACKET)
    ensures var r := ParseValue(s, inRange); r.Ok? && Written(doc, s, r.value, s[r.used..], inRange)
  {
    hide ParseValue, WsCount, NextIs, ParseElems, ParseMembers;
    var close := if s[0] == OPEN_BRACE then CLOSE_BRACE else CLOSE_BRACKET;
    ContainerValue(s, inRange);
    NextSplits(s[1..], close);
    var w := s[1..][..WsCount(s[1..])];
    var rest := AfterNext(s[1..]);
    assert rest == s[ParseValue(s, inRange).used..];
    doc := if s[0] == OPEN_BRACE then G.Table(w, []) else G.List(w, []);
    assert s == [s[0]] + (w + ([close] + rest));
    EmptyMeans(doc, inRange);
  }

  /** A value where it starts. */
  lemma {:induction false} DocAt(s: Bytes, inRange: Bytes -> bool) returns (doc: G.Doc)
    requires s != [] && !IsWs(s[0]) && ParseValue(s, inRange).Ok?
    ensures var r := ParseValue(s, inRange); Written(doc, s, r.value, s[r.used..], inRange)
    decreases |s|, 0
  {
    hide ParseValue, WsCount, NextIs, AfterNext, ParseElems, ParseMembers, PlainScalar, Written, G.DocOk;
    if s[0] != OPEN_BRACKET && s[0] != OPEN_BRACE {
      PlainValue(s, inRange);
      doc := ScalarOf(s, inRange);
    } else if NextIs(s[1..], if s[0] == OPEN_BRACE then CLOSE_BRACE else CLOSE_BRACKET) {
      doc := EmptyOf(s, inRange);
    } else {
      ContainerValue(s, inRange);
      var used := ParseValue(s, inRange).used;
      assert s[1..][used - 1..] == s[used..];
      if s[0] == OPEN_BRACKET {
        var items := ItemsOf(s[1..], [], inRange);
        doc := ListOf(s, items, s[used..], inRange);
      } else {
        var fields := FieldsOf(s[1..], [], inRange);
        doc := TableOf(s, fields, s[used..], inRange);
      }
    }
  }

  lemma PlainValue(s: Bytes, inRange: Bytes -> bool)
    requires s != [] && !IsWs(s[0]) && s[0] != OPEN_BRACKET && s[0] != OPEN_BRACE && ParseValue(s, inRange).Ok?
    ensures ParseValue(s, inRange) == PlainScalar(s, inRange)
  {
    hide PlainScalar;
    FirstNotWs(s);
    assert s[0..] == s;
  }

  lemma ListOf(s: Bytes, items: seq<G.Item>, rest: Bytes, inRange: Bytes -> bool) returns (doc: G.Doc)
    requires s != [] && s[0] == OPEN_BRACKET && items != [] && G.ItemsOk(items, inRange)
    requires s[1..] == G.ItemsOn(items, rest, inRange)
    ensures Written(doc, s, Arr([] + G.Meanings(items, inRange)), rest, inRange)
  {
    hide G.ItemsOn, G.Meanings;
    doc := G.List([], items);
    assert s == [OPEN_BRACKET] + s[1..];
    assert [] + G.Meanings(items, inRange) == G.Meanings(items, inRange);
  }

  lemma TableOf(s: Bytes, fields: seq<G.Field>, rest: Bytes, inRange: Bytes -> bool) returns (doc: G.Doc)
    requires s != [] && s[0] == OPEN_BRACE && fields != [] && G.FieldsOk(fields, inRange)
    requires s[1..] == G.FieldsOn(fields, rest, inRange)
    ensures Written(doc, s, Obj(G.Members([], fields, inRange)), rest, inRange)
  {
    hide G.FieldsOn, G.Members;
    doc := G.Table([], fields);
    assert s == [OPEN_BRACE] + s[1..];
  }

  /** A value and the white space before it. */
  lemma {:induction false} DocOf(s: Bytes, inRange: Bytes -> bool) returns (before: Bytes, doc: G.Doc)
    requires ParseValue(s, inRange).Ok?
    ensures var r := ParseValue(s, inRange);
            && G.Blank(before) && G.DocOk(doc, inRange) && G.Meaning(doc, inRange) == r.value
            && s == before + G.DocOn(doc, s[r.used..], inRange)
    decreases |s|, 1
  {
    hide ParseValue, WsCount, G.DocOn, G.Meaning, G.DocOk;
    var k := WsCount(s);
    ValueSkips(s, inRange);
    var t := s[k..];
    ValueStarts(t, inRange);
    WsRest(s);
    before := s[..k];
    doc := DocAt(t, inRange);
    var used := ParseValue(t, inRange).used;
    assert t[used..] == s[k + used..];
    assert s == s[..k] + t;
  }

  lemma ValueStarts(s: Bytes, inRange: Bytes -> bool)
    requires ParseValue(s, inRange).Ok?
    ensures s != []
  {
  }

  lemma AfterDrops(s: Bytes, n: nat, m: nat)
    requires n <= |s| && WsCount(s[n..]) < |s| - n && m <= |AfterNext(s[n..])|
    ensures AfterNext(s[n..])[m..] == s[n + WsCount(s[n..]) + 1 + m..]
  {
    hide WsCount;
  }

  /** An element put before others, or alone. */
  lemma ItemsJoin(item: G.Item, more: seq<G.Item>, tail: Bytes, rest: Bytes, done: seq<Value>, inRange: Bytes -> bool)
      returns (items: seq<G.Item>)
    requires G.Blank(item.before) && G.DocOk(item.doc, inRange) && G.Blank(item.after) && G.ItemsOk(more, inRange)
    requires tail == item.after +
                     if more == [] then [CLOSE_BRACKET] + rest else [COMMA] + G.ItemsOn(more, rest, inRange)
    ensures items != [] && G.ItemsOk(items, inRange)
    ensures G.ItemsOn(items, rest, inRange) == item.before + G.DocOn(item.doc, tail, inRange)
    ensures done + G.Meanings(items, inRange) ==
            if more == [] then done + [G.Meaning(item.doc, inRange)]
            else done + [G.Meaning(item.doc, inRange)] + G.Meanings(more, inRange)
  {
    hide G.DocOn, G.Meaning, G.DocOk, G.Meanings, G.Blank;
    items := [item] + more;
    assert items[1..] == more;
    MeaningsFirst(items, done, inRange);
  }

  /** The elements of an array after its bracket. */
  lemma {:induction false} ItemsOf(s: Bytes, done: seq<Value>, inRange: Bytes -> bool) returns (items: seq<G.Item>)
    requires ParseElems(s, done, inRange).Ok?
    ensures var r := ParseElems(s, done, inRange);
            && items != [] && G.ItemsOk(items, inRange) && r.value == done + G.Meanings(items, inRange)
            && s == G.ItemsOn(items, s[r.used..], inRange)
    decreases |s|, 2
  {
    hide ParseValue, ParseElems, WsCount, AfterNext, NextIs, G.DocOn, G.Meaning, G.DocOk, G.Meanings, G.ItemsOn,
      G.Blank;
    ElemsUnfold(s, done, inRange);
    var before, doc := DocOf(s, inRange);
    var n := ParseValue(s, inRange).used;
    var tail, rest := s[n..], s[ParseElems(s, done, inRange).used..];
    var item := G.Item(before, doc, tail[..WsCount(tail)]);
    var more: seq<G.Item> := [];
    if NextIs(tail, COMMA) {
      NextSplits(tail, COMMA);
      var next := done + [ParseValue(s, inRange).value];
      more := ItemsOf(AfterNext(tail), next, inRange);
      AfterDrops(s, n, ParseElems(AfterNext(tail), next, inRange).used);
    } else {
      NextSplits(tail, CLOSE_BRACKET);
      AfterDrops(s, n, 0);
      assert AfterNext(tail)[0..] == AfterNext(tail);
    }
    items := ItemsJoin(item, more, tail, rest, done, inRange);
  }

  lemma AfterAt(s: Bytes, n: nat)
    requires WsCount(s) < |s| && n <= |AfterNext(s)| && WsCount(AfterNext(s)[n..]) < |AfterNext(s)| - n
    ensures var mid := AfterNext(s)[n..]; AfterNext(mid) == s[WsCount(s) + 1 + n + WsCount(mid) + 1..]
  {
    hide WsCount;
  }

  lemma KeyOf(s: Bytes) returns (before: Bytes, key: seq<G.Char>, gap: Bytes)
    requires KeyPart(s).Ok?
    ensures var k := KeyPart(s);
            && G.Blank(before) && G.CharsOk(key) && G.Blank(gap) && G.CharsUnits(key) == k.value
            && s == before + ([QUOTE] + G.CharsOn(key, gap + ([COLON] + s[k.used..])))
  {
    hide WsCount, NextIs, AfterNext, StringBody, G.CharsOk, G.CharsUnits, G.CharsOn, G.Blank;
    var body := AfterNext(s);
    var n := StringBody(body, true).used;
    NextSplits(s, QUOTE);
    key := CharsOf(body);
    AfterAt(s, n);
    NextSplits(body[n..], COLON);
    before, gap := s[..WsCount(s)], body[n..][..WsCount(body[n..])];
  }

  lemma FieldsJoin(f: G.Field, more: seq<G.Field>, tail: Bytes, rest: Bytes, done: seq<Member>,
                   inRange: Bytes -> bool)
      returns (fields: seq<G.Field>)
    requires G.FieldMarksOk(f) && G.DocOk(f.doc, inRange) && G.FieldsOk(more, inRange)
    requires tail == f.after + if more == [] then [CLOSE_BRACE] + rest else [COMMA] + G.FieldsOn(more, rest, inRange)
    ensures fields != [] && G.FieldsOk(fields, inRange)
    ensures G.FieldsOn(fields, rest, inRange) ==
            f.before + ([QUOTE] + G.CharsOn(f.key, f.gap + ([COLON] + (f.space + G.DocOn(f.doc, tail, inRange)))))
    ensures var next := SetMember(done, G.CharsUnits(f.key), G.Meaning(f.doc, inRange));
            G.Members(done, fields, inRange) == if more == [] then next else G.Members(next, more, inRange)
  {
    hide G.DocOn, G.Meaning, G.DocOk, G.Members, G.Blank, G.CharsOn, G.CharsUnits, SetMember;
    fields := [f] + more;
    assert fields[1..] == more;
    assert G.FieldsTail(fields, rest, inRange) == tail;
    assert G.FieldOn(fields, rest, inRange) == f.space + G.DocOn(f.doc, tail, inRange);
    MembersFirst(done, fields, inRange);
  }

  /** A member: its key, its colon and its value. The white space behind it is `after`. */
  lemma {:induction false} FieldOf(s: Bytes, after: Bytes, inRange: Bytes -> bool) returns (f: G.Field)
    requires MemberPart(s, inRange).Ok? && G.Blank(after)
    ensures var r := MemberPart(s, inRange);
            && G.FieldMarksOk(f) && f.after == after && G.DocOk(f.doc, inRange)
            && r.value == Member(G.CharsUnits(f.key), G.Meaning(f.doc, inRange))
            && s == f.before + ([QUOTE] + G.CharsOn(f.key, f.gap + ([COLON] +
                    (f.space + G.DocOn(f.doc, s[r.used..], inRange)))))
    decreases |s|, 2
  {
    hide ParseValue, KeyPart, G.DocOn, G.Meaning, G.DocOk, G.Blank, G.CharsOk, G.CharsOn, G.CharsUnits;
    var before, key, gap := KeyOf(s);
    var on := s[KeyPart(s).used..];
    var space, doc := DocOf(on, inRange);
    assert s[MemberPart(s, inRange).used..] == on[ParseValue(on, inRange).used..];
    f := G.Field(before, key, gap, space, doc, after);
  }

  /** The members of an object after its brace. */
  lemma {:induction false} FieldsOf(s: Bytes, done: seq<Member>, inRange: Bytes -> bool) returns (fields: seq<G.Field>)
    requires ParseMembers(s, done, inRange).Ok?
    ensures var r := ParseMembers(s, done, inRange);
            && fields != [] && G.FieldsOk(fields, inRange) && r.value == G.Members(done, fields, inRange)
            && s == G.FieldsOn(fields, s[r.used..], inRange)
    decreases |s|, 3
  {
    hide MemberPart, ParseMembers, WsCount, AfterNext, NextIs, G.DocOn, G.Meaning, G.DocOk, G.Members, G.FieldMarksOk,
      G.FieldsOn, G.Blank, G.CharsOn, G.CharsUnits, SetMember;
    MembersUnfold(s, done, inRange);
    var part := MemberPart(s, inRange);
    var tail, rest := s[part.used..], s[ParseMembers(s, done, inRange).used..];
    var more: seq<G.Field> := [];
    if NextIs(tail, COMMA) {
      NextSplits(tail, COMMA);
      var next := SetMember(done, part.value.key, part.value.value);
      more := FieldsOf(AfterNext(tail), next, inRange);
      AfterDrops(s, part.used, ParseMembers(AfterNext(tail), next, inRange).used);
    } else {
      NextSplits(tail, CLOSE_BRACE);
      AfterDrops(s, part.used, 0);
      assert AfterNext(tail)[0..] == AfterNext(tail);
    }
    var f := FieldOf(s, tail[..WsCount(tail)], inRange);
    fields := FieldsJoin(f, more, tail, rest, done, inRange);
  }

  // ---------------------------------------------------------------- whole texts

  /** White space alone may follow a value. */
  lemma BlankEnds(w: Bytes)
    requires G.Blank(w)
    ensures Follows(w) && WsCount(w) == |w|
  {
    BlankIsWs(w);
    SkipAll(w, []);
    assert w + [] == w;
  }

  lemma TextParses(s: Bytes, before: Bytes, doc: G.Doc, after: Bytes, inRange: Bytes -> bool)
    requires G.IsText(s, before, doc, after, inRange)
    ensures Parse(s, inRange) == Some(G.Meaning(doc, inRange))
  {
    hide ParseValue, WsCount, G.DocOn, G.Meaning, G.DocOk, Follows;
    var text := G.DocOn(doc, after, inRange);
    BlankEnds(after);
    BlankIsWs(before);
    DocRead(doc, after, inRange);
    ValueAfterWs(before, text, inRange);
    EndsOn(before, text, after);
  }

  /** The parser takes exactly the texts of the grammar, for exactly what they mean. */
  lemma ParsesExactly(s: Bytes, v: Value, inRange: Bytes -> bool)
    ensures Parse(s, inRange) == Some(v) <==> G.Denotes(s, v, inRange)
  {
    hide ParseValue, WsCount, G.DocOn, G.Meaning, G.DocOk, G.Blank;
    if G.Denotes(s, v, inRange) {
      var before, doc, after :| G.IsText(s, before, doc, after, inRange) && G.Meaning(doc, inRange) == v;
      TextParses(s, before, doc, after, inRange);
    }
    if Parse(s, inRange) == Some(v) {
      var n := ParseValue(s, inRange).used;
      var before, doc := DocOf(s, inRange);
      AllBlank(s[n..]);
      assert G.IsText(s, before, doc, s[n..], inRange);
    }
  }

  /** So does the streaming parser, however the text is cut. */
  lemma StreamsExactly(pieces: seq<Bytes>, v: Value, inRange: Bytes -> bool)
    ensures Streamed(pieces, inRange) == Accepted(Some(v)) <==> G.Denotes(Concat(pieces), v, inRange)
    ensures (forall w :: !G.Denotes(Concat(pieces), w, inRange)) <==> Streamed(pieces, inRange) == Rejected
  {
    hide Parse, Streamed, G.Denotes;
    var s := Concat(pieces);
    StreamingAgrees(pieces, inRange);
    forall w ensures Parse(s, inRange) == Some(w) <==> G.Denotes(s, w, inRange) { ParsesExactly(s, w, inRange); }
    if Parse(s, inRange).Some? { assert G.Denotes(s, Parse(s, inRange).value, inRange); }
  }

  lemma AllBlank(s: Bytes)
    requires WsCount(s) == |s|
    ensures G.Blank(s)
  {
    hide WsCount;
  }
}
