/**
 The streaming JSON parser as a push-down machine over tokens, fed with the
 input in pieces. How the input is cut does not matter: feeding the pieces one
 by one and finishing gives what feeding them in one piece gives.
 */
module JsonStream {
  import opened Octets
  import opened JsonLex

  datatype Control =
    | Start | ParseComplete | ParseError
    | MapStart | MapNeedKey | MapSep | MapNeedVal | MapGotVal
    | ArrayStart | ArrayNeedVal | ArrayGotVal

  /** A container still open; an object also holds the key whose value comes next. */
  datatype Frame =
    | ArrayFrame(elems: seq<Value>)
    | ObjectFrame(members: seq<Member>, key: Option<Units>)

  datatype Machine = Machine(controls: seq<Control>, frames: seq<Frame>, root: Option<Value>)

  datatype Status = NeedInput | Complete | Failed

  /** The machine and the bytes not yet used after a call. */
  datatype Outcome = Outcome(status: Status, machine: Machine, rest: Bytes)

  datatype Stepped = Next(machine: Machine) | Refused

  function Init(): Machine {
    Machine([Start], [], None)
  }

  function Top(m: Machine): Control {
    if m.controls == [] then ParseError else m.controls[|m.controls| - 1]
  }

  function WithTop(m: Machine, c: Control): Machine {
    if m.controls == [] then m.(controls := [c]) else m.(controls := m.controls[|m.controls| - 1 := c])
  }

  /** gc_object_set on the members in order: a key already there keeps its place. */
  function SetMember(members: seq<Member>, key: Units, v: Value): seq<Member> {
    if members == [] then [Member(key, v)]
    else if members[0].key == key then [Member(key, v)] + members[1..]
    else [members[0]] + SetMember(members[1..], key, v)
  }

  /** A new key goes to the end. */
  lemma {:induction false} SetFresh(members: seq<Member>, key: Units, v: Value)
    requires forall i :: 0 <= i < |members| ==> members[i].key != key
    ensures SetMember(members, key, v) == members + [Member(key, v)]
  {
    if members != [] {
      SetFresh(members[1..], key, v);
      assert members == [members[0]] + members[1..];
    }
  }

  function FrameValue(f: Frame): Value {
    match f
    case ArrayFrame(elems) => Arr(elems)
    case ObjectFrame(members, _) => Obj(members)
  }

  /** add_value: the value goes to the innermost open container, or becomes the root. */
  function AddValue(m: Machine, v: Value): Stepped {
    if m.frames == [] then
      if m.root.Some? then Refused else Next(m.(root := Some(v)))
    else
      var last := |m.frames| - 1;
      match m.frames[last]
      case ArrayFrame(elems) => Next(m.(frames := m.frames[last := ArrayFrame(elems + [v])]))
      case ObjectFrame(members, None) => Refused
      case ObjectFrame(members, Some(key)) =>
        Next(m.(frames := m.frames[last := ObjectFrame(SetMember(members, key, v), None)]))
  }

  predicate WantsValue(c: Control) {
    c.Start? || c.MapNeedVal? || c.ArrayNeedVal? || c.ArrayStart?
  }

  function AfterValue(c: Control): Control
    requires WantsValue(c)
  {
    match c
    case Start => ParseComplete
    case MapNeedVal => MapGotVal
    case _ => ArrayGotVal
  }

  /** add_value followed by value_complete. */
  function Accept(m: Machine, v: Value): Stepped {
    if !WantsValue(Top(m)) then Refused
    else
      match AddValue(m, v)
      case Refused => Refused
      case Next(n) => Next(WithTop(n, AfterValue(Top(m))))
  }

  function Open(m: Machine, c: Control, f: Frame): Stepped {
    if !WantsValue(Top(m)) then Refused
    else Next(m.(controls := m.controls + [c], frames := m.frames + [f]))
  }

  /** close_container: the innermost container, of the kind closed, becomes a value of the one around it. */
  function Close(m: Machine, isObject: bool): Stepped {
    if m.frames == [] || m.frames[|m.frames| - 1].ObjectFrame? != isObject || |m.controls| <= 1 then Refused
    else
      Accept(m.(frames := m.frames[..|m.frames| - 1], controls := m.controls[..|m.controls| - 1]),
             FrameValue(m.frames[|m.frames| - 1]))
  }

  function TakeKey(m: Machine, key: Units): Stepped {
    if m.frames == [] || !m.frames[|m.frames| - 1].ObjectFrame? then Refused
    else
      var last := |m.frames| - 1;
      Next(WithTop(m.(frames := m.frames[last := m.frames[last].(key := Some(key))]), MapSep))
  }

  /** One token, as the switch of parse_internal handles it. */
  function Step(m: Machine, tok: Token): Stepped {
    match Top(m)
    case MapStart => if tok.RightBrace? then Close(m, true) else KeyStep(m, tok)
    case MapNeedKey => KeyStep(m, tok)
    case MapSep => if tok.Colon? then Next(WithTop(m, MapNeedVal)) else Refused
    case MapGotVal =>
      if tok.RightBrace? then Close(m, true) else if tok.Comma? then Next(WithTop(m, MapNeedKey)) else Refused
    case ArrayStart => if tok.RightBracket? then Close(m, false) else ValueStep(m, tok)
    case ArrayNeedVal => ValueStep(m, tok)
    case MapNeedVal => ValueStep(m, tok)
    case Start => ValueStep(m, tok)
    case ArrayGotVal =>
      if tok.RightBracket? then Close(m, false) else if tok.Comma? then Next(WithTop(m, ArrayNeedVal)) else Refused
    case ParseComplete => Refused
    case ParseError => Refused
  }

  function KeyStep(m: Machine, tok: Token): Stepped {
    if tok.Scalar? && tok.value.Str? then TakeKey(m, tok.value.units) else Refused
  }

  function ValueStep(m: Machine, tok: Token): Stepped {
    match tok
    case LeftBrace => Open(m, MapStart, ObjectFrame([], None))
    case LeftBracket => Open(m, ArrayStart, ArrayFrame([]))
    case Scalar(v) => Accept(m, v)
    case _ => Refused
  }

  function Fault(m: Machine, rest: Bytes): Outcome {
    Outcome(Failed, WithTop(m, ParseError), rest)
  }

  /** parse_internal: takes tokens from the buffer until it runs out, the value is complete or something is wrong. */
  function Drive(m: Machine, s: Bytes, final: bool, inRange: Bytes -> bool): Outcome
    decreases |s|
  {
    var k := WsCount(s);
    if Top(m).ParseComplete? then
      if k == |s| then Outcome(Complete, m, [])
      else
        match Lex(s, final, inRange)
        case NeedMore => Outcome(Complete, m, s[k..])
        case Error => Fault(m, s[k..])
        case Ok(_, n) => Fault(m, s[n..])
    else
      match Lex(s, final, inRange)
      case NeedMore => Outcome(NeedInput, m, s[k..])
      case Error => Fault(m, s[k..])
      case Ok(tok, n) =>
        if tok.End? then Fault(m, s[n..])
        else
          match Step(m, tok)
          case Refused => Fault(m, s[n..])
          case Next(next) => Drive(next, s[n..], final, inRange)
  }

  /** StreamParser::parse once per piece, whatever each call returns. */
  function Feed(m: Machine, rest: Bytes, pieces: seq<Bytes>, inRange: Bytes -> bool): (Machine, Bytes)
    decreases |pieces|
  {
    if pieces == [] then (m, rest)
    else
      var o := Drive(m, rest + pieces[0], false, inRange);
      Feed(o.machine, o.rest, pieces[1..], inRange)
  }

  /** What finish() reports: completion with the root held then, or an error. */
  datatype Verdict = Accepted(root: Option<Value>) | Rejected

  function VerdictOf(o: Outcome): Verdict {
    if o.status.Complete? then Accepted(o.machine.root) else Rejected
  }

  /** The verdict of finish() after all the pieces have been fed. */
  function Streamed(pieces: seq<Bytes>, inRange: Bytes -> bool): Verdict {
    var (m, rest) := Feed(Init(), [], pieces, inRange);
    VerdictOf(Drive(m, rest, true, inRange))
  }

  // ---------------------------------------------------------------- cuts

  /** What a call without the end of input leaves behind serves for any continuation. */
  lemma {:induction false} DriveCut(m: Machine, s: Bytes, t: Bytes, f: bool, inRange: Bytes -> bool)
    ensures var o := Drive(m, s, false, inRange);
            if o.status.Failed?
            then Drive(m, s + t, f, inRange).status.Failed? && Top(o.machine).ParseError?
            else Drive(m, s + t, f, inRange) == Drive(o.machine, o.rest + t, f, inRange)
    decreases |s|
  {
    hide Lex, WsCount, Step, WithTop;
    TopOfFault(m);
    if Lex(s, false, inRange).NeedMore? {
      DriveSkips(m, s, t, f, inRange);
      assert WsCount(s) == |s| ==> s[WsCount(s)..] == [];
    } else {
      LexStable(s, t, f, inRange);
      CutAfterToken(m, s, t, f, inRange);
    }
  }

  lemma CutAfterToken(m: Machine, s: Bytes, t: Bytes, f: bool, inRange: Bytes -> bool)
    requires !Lex(s, false, inRange).NeedMore? && Lex(s + t, f, inRange) == Lex(s, false, inRange)
    ensures var o := Drive(m, s, false, inRange);
            if o.status.Failed?
            then Drive(m, s + t, f, inRange).status.Failed? && Top(o.machine).ParseError?
            else Drive(m, s + t, f, inRange) == Drive(o.machine, o.rest + t, f, inRange)
    decreases |s|, 0
  {
    hide Lex, WsCount, Step, WithTop;
    TopOfFault(m);
    SomethingThere(s, inRange);
    WsStable(s, t);
    var r := Lex(s, false, inRange);
    if r.Ok? && !Top(m).ParseComplete? && !r.value.End? && Step(m, r.value).Next? {
      assert (s + t)[r.used..] == s[r.used..] + t;
      DriveCut(Step(m, r.value).machine, s[r.used..], t, f, inRange);
    }
  }

  lemma TopOfFault(m: Machine)
    ensures Top(WithTop(m, ParseError)) == ParseError
  {
  }

  lemma SomethingThere(s: Bytes, inRange: Bytes -> bool)
    requires !Lex(s, false, inRange).NeedMore?
    ensures WsCount(s) < |s|
  {
  }

  /** Where the next token is the same, so is everything after it. */
  lemma DriveSame(m: Machine, a: Bytes, b: Bytes, f: bool, inRange: Bytes -> bool)
    requires |b| <= |a| && b == a[|a| - |b|..]
    requires |a| - WsCount(a) == |b| - WsCount(b)
    requires var x, y := Lex(a, f, inRange), Lex(b, f, inRange);
             (x == y && !x.Ok?) || (x.Ok? && y.Ok? && x.value == y.value && |a| - x.used == |b| - y.used)
    ensures Drive(m, a, f, inRange) == Drive(m, b, f, inRange)
  {
    hide Lex, WsCount, Step, WithTop;
    assert a[WsCount(a)..] == b[WsCount(b)..];
    var x, y := Lex(a, f, inRange), Lex(b, f, inRange);
    if x.Ok? { assert a[x.used..] == b[y.used..]; }
  }

  /** Dropping the white space in front changes nothing. */
  lemma DriveSkips(m: Machine, s: Bytes, t: Bytes, f: bool, inRange: Bytes -> bool)
    ensures Drive(m, s + t, f, inRange) == Drive(m, s[WsCount(s)..] + t, f, inRange)
  {
    hide Lex, WsCount, Drive;
    LexSkips(s, t, f, inRange);
    assert s[WsCount(s)..] + t == (s + t)[WsCount(s)..];
    DriveSame(m, s + t, s[WsCount(s)..] + t, f, inRange);
  }

  lemma {:induction false} FailedStays(m: Machine, s: Bytes, f: bool, inRange: Bytes -> bool)
    requires Top(m).ParseError?
    ensures var o := Drive(m, s, f, inRange); !o.status.Complete? && Top(o.machine).ParseError?
  {
    hide Lex, WsCount;
    TopOfFault(m);
  }

  lemma {:induction false} FeedFailed(m: Machine, rest: Bytes, pieces: seq<Bytes>, inRange: Bytes -> bool)
    requires Top(m).ParseError?
    ensures Top(Feed(m, rest, pieces, inRange).0).ParseError?
    decreases |pieces|
  {
    if pieces != [] {
      hide Drive;
      FailedStays(m, rest + pieces[0], false, inRange);
      var o := Drive(m, rest + pieces[0], false, inRange);
      FeedFailed(o.machine, o.rest, pieces[1..], inRange);
    }
  }

  lemma {:induction false} FeedIsOneDrive(m: Machine, rest: Bytes, pieces: seq<Bytes>, inRange: Bytes -> bool)
    ensures var (n, left) := Feed(m, rest, pieces, inRange);
            VerdictOf(Drive(n, left, true, inRange)) == VerdictOf(Drive(m, rest + Concat(pieces), true, inRange))
    decreases |pieces|
  {
    hide Drive;
    if pieces == [] {
      assert rest + Concat(pieces) == rest;
    } else {
      var s, t := rest + pieces[0], Concat(pieces[1..]);
      assert rest + Concat(pieces) == s + t;
      var o := Drive(m, s, false, inRange);
      DriveCut(m, s, t, true, inRange);
      if o.status.Failed? {
        FeedFailed(o.machine, o.rest, pieces[1..], inRange);
        var (n, left) := Feed(o.machine, o.rest, pieces[1..], inRange);
        FailedStays(n, left, true, inRange);
      } else {
        FeedIsOneDrive(o.machine, o.rest, pieces[1..], inRange);
      }
    }
  }

  /** Any two ways to cut the same input give the same result. */
  lemma CutsDoNotMatter(pieces: seq<Bytes>, others: seq<Bytes>, inRange: Bytes -> bool)
    requires Concat(pieces) == Concat(others)
    ensures Streamed(pieces, inRange) == Streamed(others, inRange)
  {
    hide Drive;
    FeedIsOneDrive(Init(), [], pieces, inRange);
    FeedIsOneDrive(Init(), [], others, inRange);
  }
}
