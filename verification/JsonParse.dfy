/**
 The one-shot JSON parser, by recursive descent over the whole text, and the
 proof that the streaming parser accepts the same texts with the same values.
 */
module JsonParse {
  import opened Octets
  import opened JsonLex
  import opened JsonStream

  // ---------------------------------------------------------------- recursive descent

  /** parse_number: what follows the number is left to the caller. */
  function PlainNumber(s: Bytes, inRange: Bytes -> bool): (r: Scan<Value>)
    ensures !r.NeedMore? && (r.Ok? ==> 1 <= r.used <= |s|)
  {
    match NumberExtent(s)
    case CutShort => Error
    case Malformed => Error
    case Extent(whole, total) => NumberValue(s[..total], whole < total, inRange)
  }

  function PlainScalar(s: Bytes, inRange: Bytes -> bool): (r: Scan<Value>)
    requires s != []
    ensures r.Ok? ==> 1 <= r.used <= |s|
  {
    if s[0] == MINUS || IsDigit(s[0]) then PlainNumber(s, inRange) else ScalarAt(s, true, inRange)
  }

  function Shift<T>(r: Scan<T>, k: nat): Scan<T> {
    match r
    case Ok(v, n) => Ok(v, k + n)
    case _ => Error
  }

  /** The first byte that is not white space is `b`. */
  predicate NextIs(s: Bytes, b: int) {
    WsCount(s) < |s| && s[WsCount(s)] == b
  }

  /** What follows that byte. */
  function AfterNext(s: Bytes): (r: Bytes)
    requires WsCount(s) < |s|
    ensures |r| == |s| - WsCount(s) - 1
  {
    s[WsCount(s) + 1..]
  }

  /** parse_value. */
  function ParseValue(s: Bytes, inRange: Bytes -> bool): (r: Scan<Value>)
    ensures r.Ok? ==> 1 <= r.used <= |s|
    decreases |s|, 0
  {
    var k := WsCount(s);
    if k == |s| then Error
    else if s[k] == OPEN_BRACE then Shift(ObjectBody(AfterNext(s), inRange), k + 1)
    else if s[k] == OPEN_BRACKET then Shift(ArrayBody(AfterNext(s), inRange), k + 1)
    else Shift(PlainScalar(s[k..], inRange), k)
  }

  /** parse_array after the bracket. */
  function ArrayBody(s: Bytes, inRange: Bytes -> bool): (r: Scan<Value>)
    ensures r.Ok? ==> 1 <= r.used <= |s|
    decreases |s|, 2
  {
    if NextIs(s, CLOSE_BRACKET) then Ok(Arr([]), WsCount(s) + 1)
    else
      var r := ParseElems(s, [], inRange);
      if r.Ok? then Ok(Arr(r.value), r.used) else Error
  }

  /** parse_object after the brace. */
  function ObjectBody(s: Bytes, inRange: Bytes -> bool): (r: Scan<Value>)
    ensures r.Ok? ==> 1 <= r.used <= |s|
    decreases |s|, 2
  {
    if NextIs(s, CLOSE_BRACE) then Ok(Obj([]), WsCount(s) + 1)
    else
      var r := ParseMembers(s, [], inRange);
      if r.Ok? then Ok(Obj(r.value), r.used) else Error
  }

  /** The loop of parse_array. */
  function ParseElems(s: Bytes, elems: seq<Value>, inRange: Bytes -> bool): (r: Scan<seq<Value>>)
    ensures r.Ok? ==> 1 <= r.used <= |s|
    decreases |s|, 1
  {
    match ParseValue(s, inRange)
    case Ok(v, n) =>
      var rest := s[n..];
      if NextIs(rest, COMMA) then Shift(ParseElems(AfterNext(rest), elems + [v], inRange), n + WsCount(rest) + 1)
      else if NextIs(rest, CLOSE_BRACKET) then Ok(elems + [v], n + WsCount(rest) + 1)
      else Error
    case _ => Error
  }

  /** A key and its colon. */
  function KeyPart(s: Bytes): (r: Scan<Units>)
    ensures r.Ok? ==> 1 <= r.used <= |s|
  {
    if !NextIs(s, QUOTE) then Error
    else
      var name := StringBody(AfterNext(s), true);
      if !name.Ok? then Error
      else
        var mid := AfterNext(s)[name.used..];
        if NextIs(mid, COLON) then Ok(name.value, WsCount(s) + 1 + name.used + WsCount(mid) + 1) else Error
  }

  /** The loop of parse_object. */
  function ParseMembers(s: Bytes, members: seq<Member>, inRange: Bytes -> bool): (r: Scan<seq<Member>>)
    ensures r.Ok? ==> 1 <= r.used <= |s|
    decreases |s|, 1
  {
    var k := KeyPart(s);
    if k.Ok? then Shift(MemberTail(members, k.value, s[k.used..], inRange), k.used) else Error
  }

  /** A member's value and what follows it, after the colon. */
  function MemberTail(members: seq<Member>, key: Units, s: Bytes, inRange: Bytes -> bool): (r: Scan<seq<Member>>)
    ensures r.Ok? ==> 1 <= r.used <= |s|
    decreases |s|, 1
  {
    var r := ParseValue(s, inRange);
    if !r.Ok? then Error
    else
      var rest := s[r.used..];
      var more := SetMember(members, key, r.value);
      if NextIs(rest, COMMA) then Shift(ParseMembers(AfterNext(rest), more, inRange), r.used + WsCount(rest) + 1)
      else if NextIs(rest, CLOSE_BRACE) then Ok(more, r.used + WsCount(rest) + 1)
      else Error
  }

  /** Parser::parse: a value and nothing but white space after it. */
  function Parse(s: Bytes, inRange: Bytes -> bool): Option<Value> {
    match ParseValue(s, inRange)
    case Ok(v, n) => if n + WsCount(s[n..]) == |s| then Some(v) else None
    case _ => None
  }

  // ---------------------------------------------------------------- one step of the descent

  lemma ElemsUnfold(s: Bytes, elems: seq<Value>, inRange: Bytes -> bool)
    ensures var r := ParseValue(s, inRange);
            ParseElems(s, elems, inRange) ==
            if !r.Ok? then Error
            else if NextIs(s[r.used..], COMMA)
            then
              Shift(ParseElems(AfterNext(s[r.used..]), elems + [r.value], inRange), r.used + WsCount(s[r.used..]) + 1)
            else if NextIs(s[r.used..], CLOSE_BRACKET) then Ok(elems + [r.value], r.used + WsCount(s[r.used..]) + 1)
            else Error
  {
    hide ParseValue, WsCount;
  }

  /** White space before a value is no part of it. */
  lemma ValueSkips(s: Bytes, inRange: Bytes -> bool)
    ensures ParseValue(s, inRange) == Shift(ParseValue(s[WsCount(s)..], inRange), WsCount(s))
  {
    hide WsCount, ArrayBody, ObjectBody, PlainScalar;
    var k := WsCount(s);
    var t := s[k..];
    WsRest(s);
    assert k < |s| ==> AfterNext(t) == AfterNext(s) && t[0..] == t;
  }

  lemma ElemsSkip(s: Bytes, elems: seq<Value>, inRange: Bytes -> bool)
    ensures ParseElems(s, elems, inRange) == Shift(ParseElems(s[WsCount(s)..], elems, inRange), WsCount(s))
  {
    hide WsCount, ParseValue, ParseElems;
    ValueSkips(s, inRange);
    var t := s[WsCount(s)..];
    ElemsUnfold(s, elems, inRange);
    ElemsUnfold(t, elems, inRange);
    var r := ParseValue(t, inRange);
    if r.Ok? { assert t[r.used..] == s[WsCount(s) + r.used..]; }
  }

  /** A key, its colon and its value. */
  function MemberPart(s: Bytes, inRange: Bytes -> bool): (r: Scan<Member>)
    ensures r.Ok? ==> 1 <= r.used <= |s|
  {
    var k := KeyPart(s);
    if !k.Ok? then Error
    else
      var v := ParseValue(s[k.used..], inRange);
      if v.Ok? then Ok(Member(k.value, v.value), k.used + v.used) else Error
  }

  lemma TailUnfold(members: seq<Member>, key: Units, s: Bytes, inRange: Bytes -> bool)
    ensures var r := ParseValue(s, inRange);
            MemberTail(members, key, s, inRange) ==
            if !r.Ok? then Error
            else if NextIs(s[r.used..], COMMA)
            then Shift(ParseMembers(AfterNext(s[r.used..]), SetMember(members, key, r.value), inRange),
                       r.used + WsCount(s[r.used..]) + 1)
            else if NextIs(s[r.used..], CLOSE_BRACE)
            then Ok(SetMember(members, key, r.value), r.used + WsCount(s[r.used..]) + 1)
            else Error
  {
    hide ParseValue, WsCount, SetMember, NextIs, AfterNext;
  }

  lemma MembersUnfold(s: Bytes, members: seq<Member>, inRange: Bytes -> bool)
    ensures var r := MemberPart(s, inRange);
            ParseMembers(s, members, inRange) ==
            if !r.Ok? then Error
            else if NextIs(s[r.used..], COMMA)
            then Shift(ParseMembers(AfterNext(s[r.used..]), SetMember(members, r.value.key, r.value.value), inRange),
                       r.used + WsCount(s[r.used..]) + 1)
            else if NextIs(s[r.used..], CLOSE_BRACE)
            then Ok(SetMember(members, r.value.key, r.value.value), r.used + WsCount(s[r.used..]) + 1)
            else Error
  {
    hide KeyPart, ParseValue, MemberTail, WsCount, SetMember, NextIs, AfterNext;
    var k := KeyPart(s);
    if k.Ok? {
      var text := s[k.used..];
      TailUnfold(members, k.value, text, inRange);
      var v := ParseValue(text, inRange);
      if v.Ok? { assert text[v.used..] == s[k.used + v.used..]; }
    }
  }

  lemma KeySkips(s: Bytes)
    ensures KeyPart(s) == Shift(KeyPart(s[WsCount(s)..]), WsCount(s))
  {
    hide WsCount, StringBody;
    WsRest(s);
    var t := s[WsCount(s)..];
    assert WsCount(s) < |s| ==> AfterNext(t) == AfterNext(s);
  }

  lemma MembersSkip(s: Bytes, members: seq<Member>, inRange: Bytes -> bool)
    ensures ParseMembers(s, members, inRange) == Shift(ParseMembers(s[WsCount(s)..], members, inRange), WsCount(s))
  {
    hide WsCount, MemberTail, KeyPart;
    KeySkips(s);
    var t := s[WsCount(s)..];
    var k := KeyPart(t);
    if k.Ok? { assert t[k.used..] == s[WsCount(s) + k.used..]; }
  }

  // ---------------------------------------------------------------- the machine inside a container

  /** A machine that has just opened a container inside `m`. */
  function Inside(m: Machine, c: Control, f: Frame): Machine {
    m.(controls := m.controls + [c], frames := m.frames + [f])
  }

  /** A machine ready for a value: it wants one and has a place for it. */
  predicate Ready(m: Machine) {
    && WantsValue(Top(m))
    && (if m.frames == [] then m.root.None?
        else var f := m.frames[|m.frames| - 1]; f.ArrayFrame? || f.key.Some?)
  }

  /** A machine that has taken a value and waits for what may follow it. */
  predicate Settled(m: Machine) {
    Top(m).ParseComplete? || Top(m).MapGotVal? || Top(m).ArrayGotVal?
  }

  function Given(m: Machine, v: Value): Machine
    requires Ready(m)
  {
    Accept(m, v).machine
  }

  lemma ReadyTakes(m: Machine, v: Value)
    requires Ready(m)
    ensures Accept(m, v) == Next(Given(m, v)) && Settled(Given(m, v))
  {
  }

  lemma InsideTop(m: Machine, c: Control, f: Frame, d: Control)
    ensures Top(Inside(m, c, f)) == c
    ensures WithTop(Inside(m, c, f), d) == Inside(m, d, f)
  {
    assert (m.controls + [c])[|m.controls| := d] == m.controls + [d];
  }

  lemma InsideArray(m: Machine, c: Control, elems: seq<Value>, v: Value)
    requires c.ArrayStart? || c.ArrayNeedVal?
    ensures Ready(Inside(m, c, ArrayFrame(elems)))
    ensures Accept(Inside(m, c, ArrayFrame(elems)), v) == Next(Inside(m, ArrayGotVal, ArrayFrame(elems + [v])))
  {
    InsideTop(m, c, ArrayFrame(elems + [v]), ArrayGotVal);
    assert (m.frames + [ArrayFrame(elems)])[|m.frames| := ArrayFrame(elems + [v])]
        == m.frames + [ArrayFrame(elems + [v])];
  }

  lemma InsideKey(m: Machine, c: Control, members: seq<Member>, k: Option<Units>, key: Units)
    ensures TakeKey(Inside(m, c, ObjectFrame(members, k)), key)
         == Next(Inside(m, MapSep, ObjectFrame(members, Some(key))))
  {
    InsideTop(m, c, ObjectFrame(members, Some(key)), MapSep);
    assert (m.frames + [ObjectFrame(members, k)])[|m.frames| := ObjectFrame(members, Some(key))]
        == m.frames + [ObjectFrame(members, Some(key))];
  }

  lemma InsideObject(m: Machine, members: seq<Member>, key: Units, v: Value)
    ensures Ready(Inside(m, MapNeedVal, ObjectFrame(members, Some(key))))
    ensures Accept(Inside(m, MapNeedVal, ObjectFrame(members, Some(key))), v)
         == Next(Inside(m, MapGotVal, ObjectFrame(SetMember(members, key, v), None)))
  {
    hide SetMember;
    var f, g := ObjectFrame(members, Some(key)), ObjectFrame(SetMember(members, key, v), None);
    InsideTop(m, MapNeedVal, g, MapGotVal);
    assert (m.frames + [f])[|m.frames| := g] == m.frames + [g];
  }

  lemma InsideClose(m: Machine, c: Control, f: Frame)
    requires Ready(m)
    ensures Close(Inside(m, c, f), f.ObjectFrame?) == Next(Given(m, FrameValue(f)))
  {
    hide Accept;
    var n := Inside(m, c, f);
    assert n.frames[..|n.frames| - 1] == m.frames && n.controls[..|n.controls| - 1] == m.controls;
    ReadyTakes(m, FrameValue(f));
  }

  // ---------------------------------------------------------------- one token at a time

  /** The bytes after a value start with something that may follow one. */
  predicate Follows(s: Bytes) {
    s == [] || IsDelimiter(s[0])
  }

  lemma LexAt(s: Bytes, inRange: Bytes -> bool)
    requires WsCount(s) < |s|
    ensures var r := TokenAt(s[WsCount(s)..], true, inRange);
            Lex(s, true, inRange) == if r.Ok? then Ok(r.value, WsCount(s) + r.used) else r
  {
    hide WsCount, TokenAt;
  }

  lemma DriveToken(m: Machine, s: Bytes, inRange: Bytes -> bool)
    requires !Top(m).ParseComplete? && !Lex(s, true, inRange).NeedMore?
    requires Lex(s, true, inRange).Ok? ==> !Lex(s, true, inRange).value.End?
    ensures var r := Lex(s, true, inRange);
            if r.Ok? && Step(m, r.value).Next?
            then Drive(m, s, true, inRange) == Drive(Step(m, r.value).machine, s[r.used..], true, inRange)
            else Drive(m, s, true, inRange).status.Failed?
  {
    hide Lex, Step, WsCount;
  }

  /** A punctuation byte is taken in one step. */
  lemma DrivePunctuation(m: Machine, s: Bytes, inRange: Bytes -> bool)
    requires WsCount(s) < |s| && !Punctuation(s[WsCount(s)]).End? && !Top(m).ParseComplete?
    ensures var r := Step(m, Punctuation(s[WsCount(s)]));
            if r.Next? then Drive(m, s, true, inRange) == Drive(r.machine, AfterNext(s), true, inRange)
            else Drive(m, s, true, inRange).status.Failed?
  {
    hide Drive, Step, Lex, WsCount, Punctuation, ScalarAt;
    LexAt(s, inRange);
    DriveToken(m, s, inRange);
  }

  /** So is a string, literal or number. */
  lemma DriveScalar(m: Machine, s: Bytes, inRange: Bytes -> bool)
    requires WsCount(s) < |s| && Punctuation(s[WsCount(s)]).End? && !Top(m).ParseComplete?
    ensures var k := WsCount(s);
            var r := ScalarAt(s[k..], true, inRange);
            if r.Ok? && Step(m, Scalar(r.value)).Next?
            then Drive(m, s, true, inRange) == Drive(Step(m, Scalar(r.value)).machine, s[k + r.used..], true, inRange)
            else Drive(m, s, true, inRange).status.Failed?
  {
    hide Drive, Step, Lex, WsCount, Punctuation, ScalarAt, TokenAt;
    LexAt(s, inRange);
    ScalarToken(s[WsCount(s)..], inRange);
    DriveToken(m, s, inRange);
  }

  lemma ScalarToken(s: Bytes, inRange: Bytes -> bool)
    requires s != [] && Punctuation(s[0]).End?
    ensures var r := ScalarAt(s, true, inRange);
            TokenAt(s, true, inRange) == if r.Ok? then Ok(Scalar(r.value), r.used) else Error
  {
    hide ScalarAt;
    NeverShort(s, inRange);
  }

  lemma {:induction false} BodyNeverShort(s: Bytes)
    ensures !StringBody(s, true).NeedMore?
    decreases |s|
  {
    if s != [] && Element(s, true).Ok? && s[0] != QUOTE { BodyNeverShort(s[Element(s, true).used..]); }
  }

  lemma NeverShort(s: Bytes, inRange: Bytes -> bool)
    requires s != []
    ensures !ScalarAt(s, true, inRange).NeedMore?
  {
    hide StringBody, Number;
    if s[0] == QUOTE { BodyNeverShort(s[1..]); }
    NumberNeverShort(s, inRange);
  }

  lemma NumberNeverShort(s: Bytes, inRange: Bytes -> bool)
    ensures !Number(s, true, inRange).NeedMore?
  {
  }

  /** At the end of the text, an unfinished machine fails. */
  lemma DriveBlank(m: Machine, s: Bytes, inRange: Bytes -> bool)
    requires WsCount(s) == |s| && !Top(m).ParseComplete?
    ensures Drive(m, s, true, inRange).status.Failed?
  {
  }

  /** After a value a machine takes only a comma or the end of a container. */
  lemma SettledRefuses(m: Machine, tok: Token)
    requires Settled(m) && (tok.Scalar? || tok.LeftBrace? || tok.LeftBracket?)
    ensures Step(m, tok).Refused?
  {
  }

  /** After a value only white space and a delimiter can follow. */
  lemma NothingElseFollows(m: Machine, s: Bytes, inRange: Bytes -> bool)
    requires Settled(m) && !Follows(s)
    ensures Drive(m, s, true, inRange).status.Failed?
  {
    hide ScalarAt, Step, Drive, Lex, WsCount;
    NotBlank(s);
    assert s[0..] == s;
    if Top(m).ParseComplete? {
      NothingComplete(m, s, inRange);
    } else if Punctuation(s[0]).End? {
      DriveScalar(m, s, inRange);
      var r := ScalarAt(s, true, inRange);
      if r.Ok? { SettledRefuses(m, Scalar(r.value)); }
    } else {
      DrivePunctuation(m, s, inRange);
      SettledRefuses(m, Punctuation(s[0]));
    }
  }

  /** The two number readers differ only in what may follow. */
  lemma NumbersAgree(s: Bytes, inRange: Bytes -> bool)
    ensures var r := PlainNumber(s, inRange);
            Number(s, true, inRange) == if r.Ok? && !Follows(s[r.used..]) then Error else r
  {
    hide NumberExtent;
    var e := NumberExtent(s);
    if e.Extent? && e.total < |s| { assert s[e.total..][0] == s[e.total]; }
  }

  lemma ScalarsAgree(s: Bytes, inRange: Bytes -> bool)
    requires s != []
    ensures var r := PlainScalar(s, inRange);
            ScalarAt(s, true, inRange) == r ||
            (ScalarAt(s, true, inRange).Error? && r.Ok? && !Follows(s[r.used..]))
    ensures !Punctuation(s[0]).End? ==> PlainScalar(s, inRange).Error?
  {
    hide StringBody, Number, PlainNumber;
    NumbersAgree(s, inRange);
    NeverShort(s, inRange);
  }

  // ---------------------------------------------------------------- the parsers agree

  /** What driving the machine over `s` should come to, given what the descent says about `s`. */
  ghost predicate Agrees(m: Machine, s: Bytes, r: Scan<Value>, inRange: Bytes -> bool)
    requires Ready(m) && (r.Ok? ==> r.used <= |s|)
  {
    if r.Ok? && Follows(s[r.used..])
    then Drive(m, s, true, inRange) == Drive(Given(m, r.value), s[r.used..], true, inRange)
    else Drive(m, s, true, inRange).status.Failed?
  }

  lemma {:induction false} ValueAgrees(m: Machine, s: Bytes, inRange: Bytes -> bool)
    requires Ready(m) && (Top(m).ArrayStart? ==> !NextIs(s, CLOSE_BRACKET))
    ensures Agrees(m, s, ParseValue(s, inRange), inRange)
    decreases |s|, 1
  {
    hide Drive, Step, WsCount, PlainScalar, ArrayBody, ObjectBody, Accept;
    var k := WsCount(s);
    if k == |s| {
      DriveBlank(m, s, inRange);
    } else if s[k] == OPEN_BRACE {
      ObjectAgrees(m, s, inRange);
    } else if s[k] == OPEN_BRACKET {
      ArrayAgrees(m, s, inRange);
    } else {
      ScalarAgrees(m, s, inRange);
    }
  }

  /** Where a value is wanted, a scalar is taken and other punctuation refused. */
  lemma ReadySteps(m: Machine, v: Value)
    requires Ready(m)
    ensures Step(m, Scalar(v)) == Next(Given(m, v))
    ensures Step(m, RightBrace).Refused? && Step(m, Colon).Refused? && Step(m, Comma).Refused?
    ensures !Top(m).ArrayStart? ==> Step(m, RightBracket).Refused?
  {
    hide Accept, Close;
    ReadyTakes(m, v);
  }

  lemma ScalarAgrees(m: Machine, s: Bytes, inRange: Bytes -> bool)
    requires Ready(m) && (Top(m).ArrayStart? ==> !NextIs(s, CLOSE_BRACKET))
    requires WsCount(s) < |s| && s[WsCount(s)] != OPEN_BRACE && s[WsCount(s)] != OPEN_BRACKET
    ensures Agrees(m, s, Shift(PlainScalar(s[WsCount(s)..], inRange), WsCount(s)), inRange)
  {
    hide Drive, WsCount, PlainScalar, ScalarAt, Accept, Step;
    var k := WsCount(s);
    ScalarsAgree(s[k..], inRange);
    if !Punctuation(s[k]).End? {
      ReadySteps(m, Null);
      DrivePunctuation(m, s, inRange);
    } else {
      DriveScalar(m, s, inRange);
      var r := PlainScalar(s[k..], inRange);
      if r.Ok? {
        ReadySteps(m, r.value);
        assert s[k..][r.used..] == s[k + r.used..];
        if ScalarAt(s[k..], true, inRange) == r { Exactly(m, s, r.value, k + r.used, inRange); }
      }
    }
  }

  /** A container read exactly agrees whatever follows it. */
  lemma Exactly(m: Machine, s: Bytes, v: Value, n: nat, inRange: Bytes -> bool)
    requires Ready(m) && n <= |s|
    requires Drive(m, s, true, inRange) == Drive(Given(m, v), s[n..], true, inRange)
    ensures Agrees(m, s, Ok(v, n), inRange)
  {
    hide Drive, Accept;
    ReadyTakes(m, v);
    if !Follows(s[n..]) { NothingElseFollows(Given(m, v), s[n..], inRange); }
  }

  lemma ArrayAgrees(m: Machine, s: Bytes, inRange: Bytes -> bool)
    requires Ready(m) && NextIs(s, OPEN_BRACKET)
    ensures Agrees(m, s, ParseValue(s, inRange), inRange)
    decreases |s|, 0
  {
    hide Drive, WsCount, Accept, ParseElems;
    var body := AfterNext(s);
    var inner := Inside(m, ArrayStart, ArrayFrame([]));
    DrivePunctuation(m, s, inRange);
    assert Drive(m, s, true, inRange) == Drive(inner, body, true, inRange);
    if NextIs(body, CLOSE_BRACKET) {
      InsideTop(m, ArrayStart, ArrayFrame([]), ArrayStart);
      DrivePunctuation(inner, body, inRange);
      InsideClose(m, ArrayStart, ArrayFrame([]));
      assert s[WsCount(s) + 1 + WsCount(body) + 1..] == AfterNext(body);
      Exactly(m, s, Arr([]), WsCount(s) + 1 + WsCount(body) + 1, inRange);
    } else {
      ElemsAgree(m, ArrayStart, body, [], inRange);
      var r := ParseElems(body, [], inRange);
      if r.Ok? {
        assert s[WsCount(s) + 1 + r.used..] == body[r.used..];
        Exactly(m, s, Arr(r.value), WsCount(s) + 1 + r.used, inRange);
      }
    }
  }

  lemma {:induction false} ElemsAgree(m: Machine, c: Control, s: Bytes, elems: seq<Value>, inRange: Bytes -> bool)
    requires Ready(m) && (c.ArrayNeedVal? || (c.ArrayStart? && !NextIs(s, CLOSE_BRACKET)))
    ensures var inner := Inside(m, c, ArrayFrame(elems));
            var r := ParseElems(s, elems, inRange);
            if r.Ok? then Drive(inner, s, true, inRange) == Drive(Given(m, Arr(r.value)), s[r.used..], true, inRange)
            else Drive(inner, s, true, inRange).status.Failed?
    decreases |s|, 2
  {
    hide Drive, WsCount, Accept, ParseValue;
    var inner := Inside(m, c, ArrayFrame(elems));
    InsideTop(m, c, ArrayFrame(elems), c);
    var r := ParseValue(s, inRange);
    var v := if r.Ok? then r.value else Null;
    InsideArray(m, c, elems, v);
    ValueAgrees(inner, s, inRange);
    if r.Ok? {
      var rest := s[r.used..];
      if Follows(rest) {
        AfterElem(m, elems + [v], rest, inRange);
        if NextIs(rest, COMMA) {
          ElemsAgree(m, ArrayNeedVal, AfterNext(rest), elems + [v], inRange);
          var more := ParseElems(AfterNext(rest), elems + [v], inRange);
          if more.Ok? { assert AfterNext(rest)[more.used..] == s[r.used + WsCount(rest) + 1 + more.used..]; }
        } else if NextIs(rest, CLOSE_BRACKET) {
          assert AfterNext(rest) == s[r.used + WsCount(rest) + 1..];
        }
      } else {
        NotNext(rest);
      }
    }
  }

  lemma NotNext(s: Bytes)
    requires !Follows(s)
    ensures !NextIs(s, COMMA) && !NextIs(s, CLOSE_BRACKET) && !NextIs(s, CLOSE_BRACE)
  {
    assert WsCount(s) == 0;
  }

  /** Between the elements of an array. */
  lemma AfterElem(m: Machine, elems: seq<Value>, s: Bytes, inRange: Bytes -> bool)
    requires Ready(m)
    ensures var got := Inside(m, ArrayGotVal, ArrayFrame(elems));
            if NextIs(s, COMMA)
            then
              Drive(got, s, true, inRange) ==
              Drive(Inside(m, ArrayNeedVal, ArrayFrame(elems)), AfterNext(s), true, inRange)
            else if NextIs(s, CLOSE_BRACKET)
            then Drive(got, s, true, inRange) == Drive(Given(m, Arr(elems)), AfterNext(s), true, inRange)
            else Drive(got, s, true, inRange).status.Failed?
  {
    hide Drive, WsCount, Accept, Close;
    var got := Inside(m, ArrayGotVal, ArrayFrame(elems));
    InsideTop(m, ArrayGotVal, ArrayFrame(elems), ArrayNeedVal);
    InsideClose(m, ArrayGotVal, ArrayFrame(elems));
    if WsCount(s) == |s| {
      DriveBlank(got, s, inRange);
    } else if Punctuation(s[WsCount(s)]).End? {
      DriveScalar(got, s, inRange);
    } else {
      DrivePunctuation(got, s, inRange);
    }
  }

  lemma ObjectAgrees(m: Machine, s: Bytes, inRange: Bytes -> bool)
    requires Ready(m) && NextIs(s, OPEN_BRACE)
    ensures Agrees(m, s, ParseValue(s, inRange), inRange)
    decreases |s|, 0
  {
    hide Drive, WsCount, Accept, ParseMembers;
    var body := AfterNext(s);
    var inner := Inside(m, MapStart, ObjectFrame([], None));
    DrivePunctuation(m, s, inRange);
    assert Drive(m, s, true, inRange) == Drive(inner, body, true, inRange);
    if NextIs(body, CLOSE_BRACE) {
      InsideTop(m, MapStart, ObjectFrame([], None), MapStart);
      DrivePunctuation(inner, body, inRange);
      InsideClose(m, MapStart, ObjectFrame([], None));
      assert s[WsCount(s) + 1 + WsCount(body) + 1..] == AfterNext(body);
      Exactly(m, s, Obj([]), WsCount(s) + 1 + WsCount(body) + 1, inRange);
    } else {
      MembersAgree(m, MapStart, body, [], inRange);
      var r := ParseMembers(body, [], inRange);
      if r.Ok? {
        assert s[WsCount(s) + 1 + r.used..] == body[r.used..];
        Exactly(m, s, Obj(r.value), WsCount(s) + 1 + r.used, inRange);
      }
    }
  }

  lemma {:induction false} MembersAgree(m: Machine, c: Control, s: Bytes, members: seq<Member>, inRange: Bytes -> bool)
    requires Ready(m) && (c.MapNeedKey? || (c.MapStart? && !NextIs(s, CLOSE_BRACE)))
    ensures var inner := Inside(m, c, ObjectFrame(members, None));
            var r := ParseMembers(s, members, inRange);
            if r.Ok? then Drive(inner, s, true, inRange) == Drive(Given(m, Obj(r.value)), s[r.used..], true, inRange)
            else Drive(inner, s, true, inRange).status.Failed?
    decreases |s|, 2
  {
    hide Drive, WsCount, Accept, MemberTail, StringBody, SetMember;
    KeyAgrees(m, c, members, s, inRange);
    if NextIs(s, QUOTE) && StringBody(AfterNext(s), true).Ok? {
      var name := StringBody(AfterNext(s), true);
      var mid := AfterNext(s)[name.used..];
      ColonAgrees(m, members, name.value, mid, inRange);
      if NextIs(mid, COLON) {
        var text := AfterNext(mid);
        MemberAgrees(m, members, name.value, text, inRange);
        var tail := MemberTail(members, name.value, text, inRange);
        assert text == s[KeyPart(s).used..];
        if tail.Ok? { assert text[tail.used..] == s[KeyPart(s).used + tail.used..]; }
      }
    }
  }

  lemma KeyAgrees(m: Machine, c: Control, members: seq<Member>, s: Bytes, inRange: Bytes -> bool)
    requires c.MapNeedKey? || (c.MapStart? && !NextIs(s, CLOSE_BRACE))
    ensures var inner := Inside(m, c, ObjectFrame(members, None));
            if NextIs(s, QUOTE) && StringBody(AfterNext(s), true).Ok?
            then Drive(inner, s, true, inRange)
              == Drive(Inside(m, MapSep, ObjectFrame(members, Some(StringBody(AfterNext(s), true).value))),
                       AfterNext(s)[StringBody(AfterNext(s), true).used..], true, inRange)
            else Drive(inner, s, true, inRange).status.Failed?
  {
    hide Drive, WsCount, StringBody, TakeKey, Number;
    var inner := Inside(m, c, ObjectFrame(members, None));
    InsideTop(m, c, ObjectFrame(members, None), c);
    if WsCount(s) == |s| {
      DriveBlank(inner, s, inRange);
    } else if Punctuation(s[WsCount(s)]).End? {
      DriveScalar(inner, s, inRange);
      var k := WsCount(s);
      assert s[k..][1..] == s[k + 1..];
      NotAString(s[k..], inRange);
      if s[k] == QUOTE {
        var r := StringBody(s[k + 1..], true);
        if r.Ok? {
          InsideKey(m, c, members, None, r.value);
          assert s[k + (r.used + 1)..] == AfterNext(s)[r.used..];
        }
      }
    } else {
      DrivePunctuation(inner, s, inRange);
    }
  }

  /** Only a quote starts a string. */
  lemma NotAString(s: Bytes, inRange: Bytes -> bool)
    requires s != []
    ensures s[0] != QUOTE && ScalarAt(s, true, inRange).Ok? ==> !ScalarAt(s, true, inRange).value.Str?
  {
    hide StringBody, NumberExtent;
  }

  lemma ColonAgrees(m: Machine, members: seq<Member>, key: Units, s: Bytes, inRange: Bytes -> bool)
    ensures var inner := Inside(m, MapSep, ObjectFrame(members, Some(key)));
            if NextIs(s, COLON)
            then Drive(inner, s, true, inRange)
              == Drive(Inside(m, MapNeedVal, ObjectFrame(members, Some(key))), AfterNext(s), true, inRange)
            else Drive(inner, s, true, inRange).status.Failed?
  {
    hide Drive, WsCount;
    var inner := Inside(m, MapSep, ObjectFrame(members, Some(key)));
    InsideTop(m, MapSep, ObjectFrame(members, Some(key)), MapNeedVal);
    if WsCount(s) == |s| {
      DriveBlank(inner, s, inRange);
    } else if Punctuation(s[WsCount(s)]).End? {
      DriveScalar(inner, s, inRange);
    } else {
      DrivePunctuation(inner, s, inRange);
    }
  }

  /** Between the members of an object. */
  lemma AfterMember(m: Machine, members: seq<Member>, s: Bytes, inRange: Bytes -> bool)
    requires Ready(m)
    ensures var got := Inside(m, MapGotVal, ObjectFrame(members, None));
            if NextIs(s, COMMA)
            then Drive(got, s, true, inRange)
              == Drive(Inside(m, MapNeedKey, ObjectFrame(members, None)), AfterNext(s), true, inRange)
            else if NextIs(s, CLOSE_BRACE)
            then Drive(got, s, true, inRange) == Drive(Given(m, Obj(members)), AfterNext(s), true, inRange)
            else Drive(got, s, true, inRange).status.Failed?
  {
    hide Drive, WsCount, Accept, Close;
    var got := Inside(m, MapGotVal, ObjectFrame(members, None));
    InsideTop(m, MapGotVal, ObjectFrame(members, None), MapNeedKey);
    InsideClose(m, MapGotVal, ObjectFrame(members, None));
    if WsCount(s) == |s| {
      DriveBlank(got, s, inRange);
    } else if Punctuation(s[WsCount(s)]).End? {
      DriveScalar(got, s, inRange);
    } else {
      DrivePunctuation(got, s, inRange);
    }
  }

  lemma {:induction false} MemberAgrees(m: Machine, members: seq<Member>, key: Units, s: Bytes, inRange: Bytes -> bool)
    requires Ready(m)
    ensures var inner := Inside(m, MapNeedVal, ObjectFrame(members, Some(key)));
            var r := MemberTail(members, key, s, inRange);
            if r.Ok? then Drive(inner, s, true, inRange) == Drive(Given(m, Obj(r.value)), s[r.used..], true, inRange)
            else Drive(inner, s, true, inRange).status.Failed?
    decreases |s|, 2
  {
    hide Drive, WsCount, Accept, ParseValue, ParseMembers, SetMember;
    var inner := Inside(m, MapNeedVal, ObjectFrame(members, Some(key)));
    InsideTop(m, MapNeedVal, ObjectFrame(members, Some(key)), MapNeedVal);
    var r := ParseValue(s, inRange);
    var v := if r.Ok? then r.value else Null;
    InsideObject(m, members, key, v);
    ValueAgrees(inner, s, inRange);
    if r.Ok? {
      var rest, more := s[r.used..], SetMember(members, key, v);
      if Follows(rest) {
        AfterMember(m, more, rest, inRange);
        if NextIs(rest, COMMA) {
          MembersAgree(m, MapNeedKey, AfterNext(rest), more, inRange);
          var last := ParseMembers(AfterNext(rest), more, inRange);
          if last.Ok? { assert AfterNext(rest)[last.used..] == s[r.used + WsCount(rest) + 1 + last.used..]; }
        } else if NextIs(rest, CLOSE_BRACE) {
          assert AfterNext(rest) == s[r.used + WsCount(rest) + 1..];
        }
      } else {
        NotNext(rest);
      }
    }
  }

  /** What the one-shot parser's answer means for finish(). */
  function AsVerdict(r: Option<Value>): Verdict {
    if r.Some? then Accepted(r) else Rejected
  }

  lemma OneDriveAgrees(s: Bytes, inRange: Bytes -> bool)
    ensures VerdictOf(Drive(Init(), s, true, inRange)) == AsVerdict(Parse(s, inRange))
  {
    hide Lex, WsCount, ParseValue, Step;
    ValueAgrees(Init(), s, inRange);
    var r := ParseValue(s, inRange);
    if r.Ok? {
      var rest, m := s[r.used..], Given(Init(), r.value);
      assert Top(m).ParseComplete? && m.root == Some(r.value);
      if Follows(rest) {
        NothingComplete(m, rest, inRange);
      } else {
        NotBlank(rest);
      }
    }
  }

  lemma NotBlank(s: Bytes)
    requires !Follows(s)
    ensures WsCount(s) == 0 && s != []
  {
  }

  /** A complete machine at the end of input accepts white space and nothing else. */
  lemma NothingComplete(m: Machine, s: Bytes, inRange: Bytes -> bool)
    requires Top(m).ParseComplete?
    ensures var o := Drive(m, s, true, inRange);
            if WsCount(s) == |s| then o == Outcome(Complete, m, []) else o.status.Failed?
  {
    hide TokenAt, WsCount;
    if WsCount(s) < |s| {
      LexAt(s, inRange);
      TokenNeverShort(s[WsCount(s)..], inRange);
    }
  }

  lemma TokenNeverShort(s: Bytes, inRange: Bytes -> bool)
    requires s != []
    ensures !TokenAt(s, true, inRange).NeedMore?
  {
    hide ScalarAt;
    NeverShort(s, inRange);
  }

  /**
   However the text is cut, feeding the pieces and finishing completes exactly when the one-shot parser
   accepts the whole text, and then with the same value.
   */
  lemma StreamingAgrees(pieces: seq<Bytes>, inRange: Bytes -> bool)
    ensures Streamed(pieces, inRange) == AsVerdict(Parse(Concat(pieces), inRange))
  {
    hide Drive, Parse;
    FeedIsOneDrive(Init(), [], pieces, inRange);
    assert [] + Concat(pieces) == Concat(pieces);
    OneDriveAgrees(Concat(pieces), inRange);
  }
}
