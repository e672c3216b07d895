/**
 The parser objects themselves: the decoded string that widens in place, the
 lexer loops, the streaming parser with its buffer and stacks, and the one-shot
 parser with its cursor, each proved to compute the function that specifies it.
 */
module JsonParsers {
  import opened Octets
  import opened JsonLex
  import opened JsonStream
  import opened JsonParse

  /** Code units kept one byte each until one does not fit. */
  class DecodedString {
    var isByte: bool
    var bytes: Bytes
    var wide: Units

    /** The narrow form is in use exactly as long as every unit fits it. */
    ghost predicate Valid()
      reads this
    {
      if isByte then wide == [] else bytes == [] && exists i :: 0 <= i < |wide| && wide[i] > 0xFF
    }

    function Contents(): Units
      reads this
    {
      if isByte then bytes else wide
    }

    constructor ()
      ensures Valid() && Contents() == []
    {
      isByte, bytes, wide := true, [], [];
    }

    method AppendUnit(unit: nat)
      requires Valid()
      modifies this
      ensures Valid() && Contents() == old(Contents()) + [unit]
      ensures isByte <==> old(isByte) && unit <= 0xFF
    {
      if isByte && unit <= 0xFF {
        bytes := bytes + [unit];
        return;
      }
      if isByte {
        isByte := false;
        var i := 0;
        while i < |bytes|
          invariant 0 <= i <= |bytes| && bytes == old(bytes) && wide == bytes[..i] && !isByte
        {
          wide := wide + [bytes[i]];
          i := i + 1;
        }
        bytes := [];
      }
      wide := wide + [unit];
      assert old(isByte) ==> wide[|wide| - 1] > 0xFF;
      assert !old(isByte) ==> forall i :: 0 <= i < |wide| - 1 ==> wide[i] == old(wide)[i];
    }

    method AppendPoint(code: nat)
      requires Valid()
      modifies this
      ensures Valid() && Contents() == old(Contents()) + UnitsOf(code)
    {
      if code <= 0xFFFF {
        AppendUnit(code);
        return;
      }
      AppendUnit(0xD800 + (code - 0x10000) / 0x400);
      AppendUnit(0xDC00 + (code - 0x10000) % 0x400);
    }
  }

  // ---------------------------------------------------------------- scanning loops

  /** A string continued: what was decoded so far in front of the rest. */
  function Prepend(units: Units, n: nat, r: Scan<Units>): Scan<Units> {
    if r.Ok? then Ok(units + r.value, n + r.used) else r
  }

  lemma Reassociate(units: Units, n: nat, more: Units, m: nat, r: Scan<Units>)
    ensures Prepend(units, n, Prepend(more, m, r)) == Prepend(units + more, n + m, r)
  {
    if r.Ok? { assert units + (more + r.value) == units + more + r.value; }
  }

  lemma PrependStep(units: Units, n: nat, s: Bytes, final: bool)
    requires s != [] && s[0] != QUOTE
    ensures var e := Element(s, final);
            e.Ok? ==>
              Prepend(units, n, StringBody(s, final)) ==
              Prepend(units + e.value, n + e.used, StringBody(s[e.used..], final))
  {
    hide Element;
    var e := Element(s, final);
    if e.Ok? { Reassociate(units, n, e.value, e.used, StringBody(s[e.used..], final)); }
  }

  /** One escape or character of a string body, not the closing quote. */
  method DecodeElement(buffer: Bytes, i: nat, final: bool, out: DecodedString) returns (r: Scan<nat>)
    requires i < |buffer| && buffer[i] != QUOTE && out.Valid()
    modifies out
    ensures out.Valid()
    ensures var e := Element(buffer[i..], final);
            match e
            case Ok(units, used) => r == Ok(i + used, used) && out.Contents() == old(out.Contents()) + units
            case NeedMore => r == NeedMore
            case Error => r == Error
  {
    hide DecodePoint, Hex4, UnitsOf;
    var s := buffer[i..];
    assert s[0] == buffer[i];
    if buffer[i] == BACKSLASH {
      if i + 1 == |buffer| { return ShortOf(final); }
      var escape := buffer[i + 1];
      assert s[1] == escape;
      if escape == LOWER_U {
        r := DecodeUnicodeEscape(s, i, final, out);
        return;
      }
      var unit := ShortEscape(escape);
      if unit < 0 { return Error; }
      out.AppendUnit(unit);
      return Ok(i + 2, 2);
    }
    if buffer[i] < 0x20 { return Error; }
    match DecodePoint(s, final)
    case Ok(code, used) =>
      out.AppendPoint(code);
      return Ok(i + used, used);
    case NeedMore => return NeedMore;
    case Error => return Error;
  }

  function ShortOf(final: bool): Scan<nat> { if final then Error else NeedMore }

  method DecodeUnicodeEscape(s: Bytes, i: nat, final: bool, out: DecodedString) returns (r: Scan<nat>)
    requires |s| >= 2 && out.Valid()
    modifies out
    ensures out.Valid()
    ensures match UnicodeEscape(s, final)
            case Ok(units, used) => r == Ok(i + used, used) && out.Contents() == old(out.Contents()) + units
            case NeedMore => r == NeedMore
            case Error => r == Error
  {
    hide Hex4, UnitsOf;
    if |s| < 6 { return ShortOf(final); }
    var code := Hex4(s[2..6]);
    if code < 0 { return Error; }
    if IsHigh(code) {
      if |s| < 12 { return ShortOf(final); }
      if s[6] != BACKSLASH || s[7] != LOWER_U { return Error; }
      var low := Hex4(s[8..12]);
      if !IsLow(low) { return Error; }
      out.AppendPoint(0x10000 + (code - 0xD800) * 0x400 + (low - 0xDC00));
      return Ok(i + 12, 12);
    }
    if IsLow(code) { return Error; }
    out.AppendPoint(code);
    return Ok(i + 6, 6);
  }

  /** lex_string and parse_string, from the opening quote. */
  method ScanString(buffer: Bytes, start: nat, final: bool) returns (r: Scan<Units>)
    requires start < |buffer| && buffer[start] == QUOTE
    ensures r == Prepend([], start + 1, StringBody(buffer[start + 1..], final))
  {
    hide Element, StringBody, Prepend;
    ghost var whole := Prepend([], start + 1, StringBody(buffer[start + 1..], final));
    var i := start + 1;
    var decoded := new DecodedString();
    while i < |buffer|
      invariant start < i <= |buffer| && decoded.Valid() && fresh(decoded)
      invariant whole == Prepend(decoded.Contents(), i, StringBody(buffer[i..], final))
    {
      BodyStep(decoded.Contents(), buffer, i, final);
      if buffer[i] == QUOTE { return Ok(decoded.Contents(), i + 1); }
      var next := DecodeElement(buffer, i, final, decoded);
      if next.NeedMore? { return NeedMore; }
      if next.Error? { return Error; }
      i := next.value;
    }
    assert buffer[i..] == [];
    BodyEnds(decoded.Contents(), i, final);
    return Short(final);
  }

  /** One turn of the scanning loop. */
  lemma BodyStep(decoded: Units, buffer: Bytes, i: nat, final: bool)
    requires i < |buffer|
    ensures var r := Prepend(decoded, i, StringBody(buffer[i..], final));
            if buffer[i] == QUOTE then r == Ok(decoded, i + 1)
            else match Element(buffer[i..], final)
                 case Ok(units, used) =>
                   i + used <= |buffer| &&
                   r == Prepend(decoded + units, i + used, StringBody(buffer[i + used..], final))
                 case NeedMore => r == NeedMore
                 case Error => r == Error
  {
    hide Element, StringBody;
    var s := buffer[i..];
    if s[0] == QUOTE {
      BodyCloses(s, final);
      assert decoded + [] == decoded;
    } else {
      PrependStep(decoded, i, s, final);
      BodyStops(s, final);
      var e := Element(s, final);
      if e.Ok? { assert s[e.used..] == buffer[i + e.used..]; }
    }
  }

  lemma BodyEnds(decoded: Units, i: nat, final: bool)
    ensures Prepend(decoded, i, StringBody([], final)) == Short(final)
  {
    BodyEmpty(final);
  }

  lemma BodyCloses(s: Bytes, final: bool)
    requires s != [] && s[0] == QUOTE
    ensures StringBody(s, final) == Ok([], 1)
  {
  }

  lemma BodyStops(s: Bytes, final: bool)
    requires s != []
    ensures !Element(s, final).Ok? ==> StringBody(s, final) == Element(s, final)
  {
  }

  lemma BodyEmpty(final: bool)
    ensures StringBody([], final) == Short(final)
  {
  }

  /** Skips a run of digits. */
  method SkipDigits(buffer: Bytes, start: nat) returns (i: nat)
    requires start <= |buffer|
    ensures i == DigitsEnd(buffer, start)
  {
    i := start;
    while i < |buffer| && IsDigit(buffer[i])
      invariant start <= i <= |buffer| && DigitsEnd(buffer, start) == DigitsEnd(buffer, i)
    {
      i := i + 1;
    }
  }

  /** The digits, fraction and exponent of lex_number and parse_number. */
  method ScanNumber(s: Bytes) returns (r: Extent)
    ensures r == NumberExtent(s)
  {
    var i: nat := if s != [] && s[0] == MINUS then 1 else 0;
    if i == |s| { return CutShort; }
    if s[i] == ZERO {
      i := i + 1;
      if i < |s| && IsDigit(s[i]) { return Malformed; }
    } else if IsDigit(s[i]) {
      i := SkipDigits(s, i);
    } else {
      return Malformed;
    }
    assert IntegerPart(s, SignLength(s)) == At(i);
    var j: nat := i;
    if j < |s| && s[j] == DOT {
      j := j + 1;
      if j == |s| { return CutShort; }
      if !IsDigit(s[j]) { return Malformed; }
      j := SkipDigits(s, j);
    }
    assert FractionPart(s, i) == At(j);
    var k: nat := j;
    if k < |s| && (s[k] == LOWER_E || s[k] == UPPER_E) {
      k := k + 1;
      if k < |s| && (s[k] == PLUS || s[k] == MINUS) { k := k + 1; }
      if k == |s| { return CutShort; }
      if !IsDigit(s[k]) { return Malformed; }
      k := SkipDigits(s, k);
    }
    return Extent(i, k);
  }

  /** Skips white space. */
  method SkipSpace(buffer: Bytes, start: nat) returns (i: nat)
    requires start <= |buffer|
    ensures i == start + WsCount(buffer[start..])
  {
    i := start;
    while i < |buffer| && IsWs(buffer[i])
      invariant start <= i <= |buffer|
      invariant start + WsCount(buffer[start..]) == i + WsCount(buffer[i..])
    {
      assert buffer[i..][1..] == buffer[i + 1..];
      i := i + 1;
    }
  }

  /** lex_number. */
  method LexNumber(s: Bytes, final: bool, inRange: Bytes -> bool) returns (r: Scan<Value>)
    ensures r == Number(s, final, inRange)
  {
    hide NumberExtent, NumberValue;
    var e := ScanNumber(s);
    match e {
      case CutShort => return Short(final);
      case Malformed => return Error;
      case Extent(whole, total) =>
        if total == |s| && !final { return NeedMore; }
        if total < |s| && !IsDelimiter(s[total]) { return Error; }
        return NumberValue(s[..total], whole < total, inRange);
    }
  }

  /** lex_token. */
  method LexToken(buffer: Bytes, pos: nat, final: bool, inRange: Bytes -> bool) returns (r: Scan<Token>)
    requires pos <= |buffer|
    ensures r == Lex(buffer[pos..], final, inRange)
  {
    hide WsCount, StringBody, Number, Literal;
    var i := SkipSpace(buffer, pos);
    ghost var k := WsCount(buffer[pos..]);
    assert buffer[pos..][k..] == buffer[i..];
    if i == |buffer| { return if final then Ok(End, i - pos) else NeedMore; }
    var s := buffer[i..];
    if !Punctuation(s[0]).End? { return Ok(Punctuation(s[0]), i - pos + 1); }
    var v: Scan<Value>;
    if s[0] == QUOTE {
      var body := ScanString(s, 0, final);
      assert body.Ok? ==> body.value == StringBody(s[1..], final).value;
      v := if body.Ok? then Ok(Str(body.value), body.used) else if body.NeedMore? then NeedMore else Error;
    } else if s[0] == MINUS || IsDigit(s[0]) {
      v := LexNumber(s, final, inRange);
    } else {
      v := ScalarAt(s, final, inRange);
    }
    assert v == ScalarAt(s, final, inRange);
    return if v.Ok? then Ok(Scalar(v.value), i - pos + v.used) else if v.NeedMore? then NeedMore else Error;
  }

  // ---------------------------------------------------------------- the streaming parser

  lemma DriveStops(m: Machine, s: Bytes, final: bool, inRange: Bytes -> bool)
    requires !Top(m).ParseComplete? && !Lex(s, final, inRange).Ok?
    ensures Drive(m, s, final, inRange) ==
            if Lex(s, final, inRange).NeedMore? then Outcome(NeedInput, m, s[WsCount(s)..])
            else Fault(m, s[WsCount(s)..])
  {
    hide Lex, WsCount, Step, WithTop;
  }

  lemma DriveTakes(m: Machine, s: Bytes, final: bool, inRange: Bytes -> bool)
    requires !Top(m).ParseComplete? && Lex(s, final, inRange).Ok?
    ensures var r := Lex(s, final, inRange);
            Drive(m, s, final, inRange) ==
            if r.value.End? || Step(m, r.value).Refused? then Fault(m, s[r.used..])
            else Drive(Step(m, r.value).machine, s[r.used..], final, inRange)
  {
    hide Lex, WsCount, Step, WithTop;
  }

  lemma DriveCompleted(m: Machine, s: Bytes, final: bool, inRange: Bytes -> bool)
    requires Top(m).ParseComplete?
    ensures var r := Lex(s, final, inRange);
            Drive(m, s, final, inRange) ==
            if WsCount(s) == |s| || r.NeedMore? then Outcome(Complete, m, s[WsCount(s)..])
            else Fault(m, s[if r.Ok? then r.used else WsCount(s)..])
  {
    hide Lex, WsCount, Step, WithTop;
  }

  class StreamParser {
    var buffer: Bytes
    var pos: nat
    var totalOffset: nat
    var controls: seq<Control>
    var frames: seq<Frame>
    var root: Option<Value>
    const inRange: Bytes -> bool

    ghost predicate Valid()
      reads this
    {
      pos <= |buffer|
    }

    function Now(): Machine
      reads this
    {
      Machine(controls, frames, root)
    }

    /** The bytes not used yet. */
    function Rest(): Bytes
      requires pos <= |buffer|
      reads this
    {
      buffer[pos..]
    }

    constructor (inRange: Bytes -> bool)
      ensures Valid() && Now() == Init() && Rest() == [] && totalOffset == 0 && this.inRange == inRange
    {
      this.inRange := inRange;
      buffer, pos, totalOffset := [], 0, 0;
      controls, frames, root := [Start], [], None;
    }

    /** Forgets the used bytes; the offset of the next byte in the whole input stays the same. */
    method CompactBuffer()
      requires Valid()
      modifies this`buffer, this`pos, this`totalOffset
      ensures Valid() && Rest() == old(Rest()) && pos == 0 && totalOffset == old(totalOffset + pos)
      ensures totalOffset + |buffer| == old(totalOffset + |buffer|)
    {
      if pos == 0 { return; }
      totalOffset := totalOffset + pos;
      buffer := buffer[pos..];
      pos := 0;
    }

    /** Moves the cursor over used bytes. */
    method Advance(n: nat)
      requires Valid() && n <= |Rest()|
      modifies this`pos
      ensures Valid() && pos == old(pos) + n && Rest() == old(Rest())[n..]
    {
      pos := pos + n;
    }

    method Become(m: Machine)
      requires Valid()
      modifies this`controls, this`frames, this`root
      ensures Now() == m
    {
      controls, frames, root := m.controls, m.frames, m.root;
    }

    predicate CanAcceptValue()
      reads this
    {
      controls != [] && WantsValue(controls[|controls| - 1])
    }

    /** add_value: to the innermost open container, or as the root. */
    method PutValue(v: Value) returns (ok: bool)
      modifies this`frames, this`root
      ensures ok == AddValue(old(Now()), v).Next?
      ensures Now() == if ok then AddValue(old(Now()), v).machine else old(Now())
    {
      if frames == [] {
        if root.Some? { return false; }
        root := Some(v);
        return true;
      }
      var last := |frames| - 1;
      match frames[last] {
        case ArrayFrame(elems) =>
          frames := frames[last := ArrayFrame(elems + [v])];
          return true;
        case ObjectFrame(members, key) =>
          if key.None? { return false; }
          frames := frames[last := ObjectFrame(SetMember(members, key.value, v), None)];
          return true;
      }
    }

    /** value_complete: the state after a value. */
    method ValueComplete()
      requires CanAcceptValue()
      modifies this`controls
      ensures Now() == WithTop(old(Now()), AfterValue(Top(old(Now()))))
    {
      var last := |controls| - 1;
      var next := if controls[last].Start? then ParseComplete
                  else if controls[last].MapNeedVal? then MapGotVal
                  else ArrayGotVal;
      controls := controls[last := next];
    }

    method TakeValue(v: Value) returns (ok: bool)
      modifies this`controls, this`frames, this`root
      ensures ok == Accept(old(Now()), v).Next?
      ensures Now() == if ok then Accept(old(Now()), v).machine else old(Now())
    {
      hide AddValue;
      if !CanAcceptValue() { return false; }
      ok := PutValue(v);
      if ok { ValueComplete(); }
    }

    /** begin_object and begin_array. */
    method Begin(state: Control, frame: Frame) returns (ok: bool)
      modifies this`controls, this`frames
      ensures ok == Open(old(Now()), state, frame).Next?
      ensures Now() == if ok then Open(old(Now()), state, frame).machine else old(Now())
    {
      if !CanAcceptValue() { return false; }
      frames := frames + [frame];
      controls := controls + [state];
      return true;
    }

    /** close_container: the innermost container goes to the one around it. */
    method CloseContainer(isObject: bool) returns (ok: bool)
      modifies this`controls, this`frames, this`root
      ensures ok == Close(old(Now()), isObject).Next?
      ensures Now() == if ok then Close(old(Now()), isObject).machine else old(Now())
    {
      hide Accept;
      if frames == [] || frames[|frames| - 1].ObjectFrame? != isObject || |controls| <= 1 { return false; }
      var states, open := controls, frames;
      frames := frames[..|frames| - 1];
      controls := controls[..|controls| - 1];
      ok := TakeValue(FrameValue(open[|open| - 1]));
      if !ok { controls, frames := states, open; }
    }

    /** The switch of parse_internal over the state and the token. */
    method TakeToken(tok: Token) returns (ok: bool)
      modifies this`controls, this`frames, this`root
      ensures ok == Step(old(Now()), tok).Next?
      ensures Now() == if ok then Step(old(Now()), tok).machine else old(Now())
    {
      hide Accept, Close, Open;
      if controls == [] { return false; }
      var last := |controls| - 1;
      var state := controls[last];
      if (tok.RightBrace? && (state.MapStart? || state.MapGotVal?)) ||
         (tok.RightBracket? && (state.ArrayStart? || state.ArrayGotVal?)) {
        ok := CloseContainer(tok.RightBrace?);
      } else if state.MapStart? || state.MapNeedKey? {
        if !tok.Scalar? || !tok.value.Str? { return false; }
        if frames == [] || !frames[|frames| - 1].ObjectFrame? { return false; }
        frames := frames[|frames| - 1 := frames[|frames| - 1].(key := Some(tok.value.units))];
        controls := controls[last := MapSep];
        return true;
      } else if state.MapSep? {
        if !tok.Colon? { return false; }
        controls := controls[last := MapNeedVal];
        return true;
      } else if state.MapGotVal? || state.ArrayGotVal? {
        if !tok.Comma? { return false; }
        controls := controls[last := if state.MapGotVal? then MapNeedKey else ArrayNeedVal];
        return true;
      } else if CanAcceptValue() {
        if tok.LeftBrace? {
          ok := Begin(MapStart, ObjectFrame([], None));
        } else if tok.LeftBracket? {
          ok := Begin(ArrayStart, ArrayFrame([]));
        } else if tok.Scalar? {
          ok := TakeValue(tok.value);
        } else {
          return false;
        }
      } else {
        return false;
      }
    }

    /** Takes tokens from the buffer as long as it can. */
    method ParseInternal(final: bool) returns (status: Status)
      requires Valid()
      modifies this
      ensures Valid() && totalOffset + |buffer| == old(totalOffset + |buffer|)
      ensures Outcome(status, Now(), Rest()) == Drive(old(Now()), old(Rest()), final, inRange)
    {
      hide Drive, Lex, WsCount, Step, WithTop, Top;
      ghost var goal := Drive(Now(), Rest(), final, inRange);
      ghost var size := totalOffset + |buffer|;
      while true
        invariant Valid() && totalOffset + |buffer| == size
        invariant goal == Drive(Now(), Rest(), final, inRange)
        decreases |buffer| - pos
      {
        if Top(Now()).ParseComplete? {
          status := Finished(final);
          return;
        }
        ghost var before := Rest();
        var r := LexToken(buffer, pos, final, inRange);
        if !r.Ok? {
          DriveStops(Now(), before, final, inRange);
          status := Stop(r.NeedMore?);
          return;
        }
        DriveTakes(Now(), before, final, inRange);
        Advance(r.used);
        if r.value.End? {
          Become(WithTop(Now(), ParseError));
          return Failed;
        }
        var ok := TakeToken(r.value);
        if !ok {
          Become(WithTop(Now(), ParseError));
          return Failed;
        }
      }
    }

    /** No token to take: the white space is skipped, and the call ends. */
    method Stop(needMore: bool) returns (status: Status)
      requires Valid()
      modifies this
      ensures Valid() && totalOffset + |buffer| == old(totalOffset + |buffer|)
      ensures Rest() == old(Rest())[WsCount(old(Rest()))..]
      ensures if needMore then status == NeedInput && Now() == old(Now())
              else status == Failed && Now() == WithTop(old(Now()), ParseError)
    {
      hide WsCount, WithTop;
      var i := SkipSpace(buffer, pos);
      Advance(i - pos);
      if needMore {
        CompactBuffer();
        return NeedInput;
      }
      Become(WithTop(Now(), ParseError));
      return Failed;
    }

    /** Once the value is complete only white space may follow; a token cut short is left for the next call. */
    method Finished(final: bool) returns (status: Status)
      requires Valid() && Top(Now()).ParseComplete?
      modifies this
      ensures Valid() && totalOffset + |buffer| == old(totalOffset + |buffer|)
      ensures Outcome(status, Now(), Rest()) == Drive(old(Now()), old(Rest()), final, inRange)
    {
      hide Drive, Lex, WsCount, WithTop, Top;
      ghost var before := Rest();
      DriveCompleted(Now(), before, final, inRange);
      var extra := LexToken(buffer, pos, final, inRange);
      var blank := SkipSpace(buffer, pos);
      var space := blank - pos;
      if pos + space == |buffer| || extra.NeedMore? {
        Advance(space);
        CompactBuffer();
        return Complete;
      }
      Advance(if extra.Ok? then extra.used else space);
      Become(WithTop(Now(), ParseError));
      return Failed;
    }

    method Parse(data: Bytes) returns (status: Status)
      requires Valid()
      modifies this
      ensures Valid()
      ensures Outcome(status, Now(), Rest()) == Drive(old(Now()), old(Rest()) + data, false, inRange)
      ensures totalOffset + |buffer| == old(totalOffset + |buffer|) + |data|
    {
      hide Drive;
      ghost var before := Rest();
      buffer := buffer + data;
      assert Rest() == before + data;
      status := ParseInternal(false);
    }

    method Finish() returns (status: Status)
      requires Valid()
      modifies this
      ensures Valid()
      ensures Outcome(status, Now(), Rest()) == Drive(old(Now()), old(Rest()), true, inRange)
    {
      status := ParseInternal(true);
    }
  }

  /** Feeding any pieces to a fresh parser and finishing gives what the one-shot parser says of the whole. */
  method ParsePieces(pieces: seq<Bytes>, inRange: Bytes -> bool) returns (verdict: Verdict)
    ensures verdict == AsVerdict(JsonParse.Parse(Concat(pieces), inRange))
  {
    hide Drive, JsonParse.Parse, AsVerdict;
    var parser := new StreamParser(inRange);
    var i := 0;
    assert pieces[0..] == pieces;
    while i < |pieces|
      invariant 0 <= i <= |pieces| && parser.Valid() && fresh(parser) && parser.inRange == inRange
      invariant Feed(Init(), [], pieces, inRange) == Feed(parser.Now(), parser.Rest(), pieces[i..], inRange)
    {
      assert pieces[i..][1..] == pieces[i + 1..];
      var status := parser.Parse(pieces[i]);
      i := i + 1;
    }
    var status := parser.Finish();
    verdict := if status.Complete? then Accepted(parser.root) else Rejected;
    StreamingAgrees(pieces, inRange);
  }
}
