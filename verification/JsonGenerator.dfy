/**
 The generator object: a stack of states, a sink, and the calls that move it;
 driven by the walk over a value it writes exactly that value's text.
 */
module JsonGenerator {
  import opened Octets
  import opened JsonLex
  import opened JsonStream
  import opened JsonUtf
  import opened JsonText
  import opened JsonRoundTrip
  import JsonParse

  datatype State = Begun | InMapStart | InMapKey | InMapValue | InArrayStart | InArray | Done | Broken

  datatype Result = OK | KeysMustBeString | ErrorState | GenerateComplete | MaxDepthExceeded | InvalidString

  const MAX_STACK: nat := 128

  predicate TakesValue(s: State) {
    s.Begun? || s.InMapValue? || s.InArrayStart? || s.InArray?
  }

  function AfterValueState(s: State): State
    requires TakesValue(s)
  {
    match s
    case Begun => Done
    case InMapValue => InMapKey
    case _ => InArray
  }

  /** What goes in front of a value. */
  function ValuePrefix(s: State, level: nat, st: Style): Bytes {
    match s
    case InArrayStart => Break(level, st)
    case InArray => [COMMA] + Break(level, st)
    case _ => []
  }

  function KeyPrefix(s: State, level: nat, st: Style): Bytes {
    match s
    case InMapStart => Break(level, st)
    case InMapKey => [COMMA] + Break(level, st)
    case _ => []
  }

  // ---------------------------------------------------------------- which values can be written

  function Max(a: nat, b: nat): nat { if a < b then b else a }

  /** How deeply containers are nested in a value. */
  function Height(v: Value): nat
    decreases v
  {
    match v
    case Arr(elems) => 1 + ElemsHeight(elems)
    case Obj(members) => 1 + MembersHeight(members)
    case _ => 0
  }

  function ElemsHeight(elems: seq<Value>): nat
    decreases elems
  {
    if elems == [] then 0 else Max(Height(elems[0]), ElemsHeight(elems[1..]))
  }

  function MembersHeight(members: seq<Member>): nat
    decreases members
  {
    if members == [] then 0 else Max(Height(members[0].value), MembersHeight(members[1..]))
  }

  /** A value as the heap can hold it: keys once each, units of 16 bits, integers of 64; floats left out. */
  predicate Storable(v: Value) {
    match v
    case Null => true
    case Bool(_) => true
    case Int(i) => FitsInt64(i)
    case Float(_) => false
    case Str(units) => AreUnits(units)
    case Arr(elems) => forall i :: 0 <= i < |elems| ==> Storable(elems[i])
    case Obj(members) =>
      DistinctKeys(members) && forall i :: 0 <= i < |members| ==> AreUnits(members[i].key) && Storable(members[i].value)
  }

  /** The heap can hold whatever the generator writes. */
  lemma WritableIsStorable(v: Value)
    requires Writable(v)
    ensures Storable(v)
  {
  }

  /** The generator accepts a value when its strings are well formed and it is not nested too deeply. */
  predicate Accepts(v: Value, depth: nat) {
    Writable(v) && depth + Height(v) <= MAX_STACK
  }

  predicate AcceptsElems(elems: seq<Value>, depth: nat) {
    forall i :: 0 <= i < |elems| ==> Accepts(elems[i], depth)
  }

  predicate AcceptsMembers(members: seq<Member>, depth: nat) {
    forall i :: 0 <= i < |members| ==> WellFormed(members[i].key) && Accepts(members[i].value, depth)
  }

  lemma {:induction false} ElemsHeightFits(elems: seq<Value>, bound: nat)
    ensures ElemsHeight(elems) <= bound <==> forall i :: 0 <= i < |elems| ==> Height(elems[i]) <= bound
  {
    if elems != [] {
      ElemsHeightFits(elems[1..], bound);
      assert forall i :: 1 <= i < |elems| ==> elems[1..][i - 1] == elems[i];
    }
  }

  lemma {:induction false} MembersHeightFits(members: seq<Member>, bound: nat)
    ensures MembersHeight(members) <= bound <==> forall i :: 0 <= i < |members| ==> Height(members[i].value) <= bound
  {
    if members != [] {
      MembersHeightFits(members[1..], bound);
      assert forall i :: 1 <= i < |members| ==> members[1..][i - 1] == members[i];
    }
  }

  /** An array is accepted when there is room for it and its elements are accepted inside it. */
  lemma AcceptsArray(elems: seq<Value>, depth: nat)
    ensures Accepts(Arr(elems), depth) <==> depth < MAX_STACK && AcceptsElems(elems, depth + 1)
  {
    if depth < MAX_STACK { ElemsHeightFits(elems, MAX_STACK - depth - 1); }
  }

  lemma AcceptsObject(members: seq<Member>, depth: nat)
    requires DistinctKeys(members)
    ensures Accepts(Obj(members), depth) <==> depth < MAX_STACK && AcceptsMembers(members, depth + 1)
  {
    if depth < MAX_STACK { MembersHeightFits(members, MAX_STACK - depth - 1); }
  }

  // ---------------------------------------------------------------- what is left to write

  /** The rest of an array's text once `k` elements have been written. */
  function ElemsLeft(elems: seq<Value>, k: nat, level: nat, st: Style): Bytes
    requires k <= |elems| && AllWritable(elems)
  {
    if k == |elems| then (if k == 0 then [] else Break(level, st)) + [CLOSE_BRACKET]
    else (if k == 0 then [] else [COMMA]) + ElemsText(elems[k..], level, st)
  }

  lemma ElemsLeftStep(elems: seq<Value>, k: nat, level: nat, st: Style)
    requires k < |elems| && AllWritable(elems)
    ensures ElemsLeft(elems, k, level, st)
         == ValuePrefix(if k == 0 then InArrayStart else InArray, level + 1, st)
          + Text(elems[k], level + 1, st) + ElemsLeft(elems, k + 1, level, st)
  {
    hide Break, Text;
    ElemsTextIs(elems[k..], level, st);
    assert elems[k..][1..] == elems[k + 1..];
    assert ElemsTail(elems[k..], level, st) == ElemsLeft(elems, k + 1, level, st);
    var b, t, tail := Break(level + 1, st), Text(elems[k], level + 1, st), ElemsLeft(elems, k + 1, level, st);
    Assoc(b, t, tail);
    if k > 0 {
      Assoc([COMMA], b, t);
      Assoc([COMMA], b + t, tail);
    }
  }

  lemma ElemsLeftAll(elems: seq<Value>, level: nat, st: Style)
    requires Writable(Arr(elems))
    ensures Text(Arr(elems), level, st) == [OPEN_BRACKET] + ElemsLeft(elems, 0, level, st)
  {
    hide Break, ElemsText;
    assert elems[0..] == elems;
    assert ElemsLeft(elems, 0, level, st) == if elems == [] then [CLOSE_BRACKET] else ElemsText(elems, level, st);
  }

  function MembersLeft(members: seq<Member>, k: nat, level: nat, st: Style): Bytes
    requires k <= |members| && MembersWritable(members)
  {
    if k == |members| then (if k == 0 then [] else Break(level, st)) + [CLOSE_BRACE]
    else (if k == 0 then [] else [COMMA]) + MembersText(members[k..], level, st)
  }

  function KeyText(key: Units, st: Style): Bytes
    requires WellFormed(key)
  {
    StringText(key, st) + ([COLON] + ColonSpace(st))
  }

  lemma MembersLeftStep(members: seq<Member>, k: nat, level: nat, st: Style)
    requires k < |members| && MembersWritable(members)
    ensures MembersLeft(members, k, level, st)
         == KeyPrefix(if k == 0 then InMapStart else InMapKey, level + 1, st) + KeyText(members[k].key, st)
          + Text(members[k].value, level + 1, st) + MembersLeft(members, k + 1, level, st)
  {
    hide Break, Text, StringText, ColonSpace;
    MembersTextIs(members[k..], level, st);
    assert members[k..][1..] == members[k + 1..];
    assert MembersTail(members[k..], level, st) == MembersLeft(members, k + 1, level, st);
    Regroup(if k == 0 then [] else [COMMA], Break(level + 1, st), StringText(members[k].key, st), [COLON],
            ColonSpace(st), Text(members[k].value, level + 1, st), MembersLeft(members, k + 1, level, st));
    assert [] + Break(level + 1, st) == Break(level + 1, st);
  }

  lemma Regroup(p: Bytes, b: Bytes, k: Bytes, c: Bytes, sp: Bytes, t: Bytes, tail: Bytes)
    ensures p + (b + (k + (c + (sp + (t + tail))))) == p + b + (k + (c + sp)) + t + tail
  {
    Assoc(p + b + (k + (c + sp)), t, tail);
    Assoc(p, b, k + (c + sp));
    Assoc(p, b + (k + (c + sp)), t + tail);
    Assoc(b, k + (c + sp), t + tail);
    Assoc(k, c + sp, t + tail);
    Assoc(c, sp, t + tail);
  }

  lemma MembersLeftAll(members: seq<Member>, level: nat, st: Style)
    requires Writable(Obj(members))
    ensures Text(Obj(members), level, st) == [OPEN_BRACE] + MembersLeft(members, 0, level, st)
  {
    hide Break, MembersText;
    assert members[0..] == members;
    assert MembersLeft(members, 0, level, st)
      == if members == [] then [CLOSE_BRACE] else MembersText(members, level, st);
  }

  // ---------------------------------------------------------------- the object

  class Generator {
    const st: Style
    const stack: array<State>
    var depth: nat
    var sink: Bytes

    ghost predicate Valid()
      reads this
    {
      stack.Length == MAX_STACK && 1 <= depth <= MAX_STACK
    }

    function Now(): State
      requires 1 <= depth <= stack.Length
      reads this, stack
    {
      stack[depth - 1]
    }

    constructor (st: Style)
      ensures Valid() && fresh(stack) && this.st == st && depth == 1 && Now() == Begun && sink == []
    {
      this.st := st;
      stack := new State[MAX_STACK](_ => Begun);
      depth, sink := 1, [];
    }

    method Append(s: Bytes)
      modifies this`sink
      ensures sink == old(sink) + s
    {
      sink := sink + s;
    }

    method AppendIndent(level: nat)
      modifies this`sink
      ensures sink == old(sink) + Repeat(st.indent, level)
    {
      if st.indent == [] {
        RepeatNothing(level);
        return;
      }
      var i := 0;
      while i < level
        invariant 0 <= i <= level && old(sink) + Repeat(st.indent, level) == sink + Repeat(st.indent, level - i)
      {
        Assoc(sink, st.indent, Repeat(st.indent, level - i - 1));
        Append(st.indent);
        i := i + 1;
      }
    }

    method AppendBreak(level: nat)
      modifies this`sink
      ensures sink == old(sink) + Break(level, st)
    {
      if st.beauty {
        Append([0x0A]);
        AppendIndent(level);
        Assoc(old(sink), [0x0A], Repeat(st.indent, level));
      }
    }

    /** The state becomes Error and the reason is reported. */
    method SetError(why: Result) returns (r: Result)
      requires Valid()
      modifies stack
      ensures r == why && Now() == Broken && stack[..depth - 1] == old(stack[..depth - 1])
    {
      stack[depth - 1] := Broken;
      return why;
    }

    method PrefixForValue() returns (r: Result)
      requires Valid()
      modifies this`sink, stack
      ensures r.OK? <==> TakesValue(old(Now()))
      ensures r.OK? ==> sink == old(sink) + ValuePrefix(old(Now()), depth - 1, st) && stack[..] == old(stack[..])
      ensures !r.OK? ==> sink == old(sink) && (Now() == Broken || (old(Now()) == Done && r == GenerateComplete))
    {
      hide Break;
      var state := Now();
      if state.Broken? { return ErrorState; }
      if state.Done? { return GenerateComplete; }
      if state.InMapStart? || state.InMapKey? {
        r := SetError(KeysMustBeString);
        return;
      }
      if state.InArrayStart? {
        AppendBreak(depth - 1);
      } else if state.InArray? {
        Append([COMMA]);
        AppendBreak(depth - 1);
        Assoc(old(sink), [COMMA], Break(depth - 1, st));
      }
      return OK;
    }

    method PrefixForKey()
      requires Valid() && (Now().InMapStart? || Now().InMapKey?)
      modifies this`sink
      ensures sink == old(sink) + KeyPrefix(Now(), depth - 1, st)
    {
      hide Break;
      if Now().InMapStart? {
        AppendBreak(depth - 1);
      } else {
        Append([COMMA]);
        AppendBreak(depth - 1);
        Assoc(old(sink), [COMMA], Break(depth - 1, st));
      }
    }

    /** The state after a value. */
    method FinishValue() returns (r: Result)
      requires Valid()
      modifies stack
      ensures (r.OK? <==> TakesValue(old(Now()))) && stack[..depth - 1] == old(stack[..depth - 1])
      ensures r.OK? ==> Now() == AfterValueState(old(Now()))
      ensures !r.OK? ==> Now() == Broken || (old(Now()) == Done && Now() == Done && r == GenerateComplete)
    {
      match Now() {
        case Done => return GenerateComplete;
        case Broken => return ErrorState;
        case InMapStart => r := SetError(KeysMustBeString);
        case InMapKey => r := SetError(KeysMustBeString);
        case _ =>
          stack[depth - 1] := AfterValueState(Now());
          return OK;
      }
    }

    method Push(s: State) returns (r: Result)
      requires Valid()
      modifies this`depth, stack
      ensures Valid() && (r.OK? <==> old(depth) < MAX_STACK)
      ensures r.OK? ==> depth == old(depth) + 1 && Now() == s && stack[..depth - 1] == old(stack[..depth])
      ensures !r.OK? ==> r == MaxDepthExceeded && Now() == Broken
    {
      if depth >= MAX_STACK {
        r := SetError(MaxDepthExceeded);
        return;
      }
      stack[depth] := s;
      depth := depth + 1;
      return OK;
    }

    /** write_string: quotes and escapes, byte by byte. */
    method WriteString(utf8: Bytes)
      modifies this`sink
      ensures sink == old(sink) + ([QUOTE] + Escape(utf8, st) + [QUOTE])
    {
      hide EscapeByte;
      Append([QUOTE]);
      ghost var from := sink;
      var i := 0;
      assert utf8[0..] == utf8;
      while i < |utf8|
        invariant 0 <= i <= |utf8| && from + Escape(utf8, st) == sink + Escape(utf8[i..], st)
      {
        assert utf8[i..][1..] == utf8[i + 1..];
        Assoc(sink, EscapeByte(utf8[i], st), Escape(utf8[i + 1..], st));
        Append(EscapeByte(utf8[i], st));
        i := i + 1;
      }
      assert utf8[i..] == [] && Escape(utf8[i..], st) == [];
      Append([QUOTE]);
      Assoc(old(sink), [QUOTE], Escape(utf8, st));
      Assoc(old(sink), [QUOTE] + Escape(utf8, st), [QUOTE]);
    }

    /** A value that is one piece of text, between its prefix and the change of state. */
    method Scalar(text: Bytes) returns (r: Result)
      requires Valid()
      modifies this`sink, stack
      ensures r.OK? <==> TakesValue(old(Now()))
      ensures r.OK? ==> Now() == AfterValueState(old(Now())) && stack[..depth - 1] == old(stack[..depth - 1])
      ensures r.OK? ==> sink == old(sink) + ValuePrefix(old(Now()), depth - 1, st) + text
      ensures !r.OK? ==> sink == old(sink) && (Now() == Broken || old(Now()) == Done)
    {
      r := PrefixForValue();
      if !r.OK? { return; }
      assert Now() == old(stack[..])[depth - 1];
      Append(text);
      assert stack[..depth - 1] == old(stack[..])[..depth - 1] == old(stack[..depth - 1]);
      r := FinishValue();
    }

    /** A string: a key where a key is due, otherwise a value. */
    method StringUnits(units: Units) returns (r: Result)
      requires Valid() && AreUnits(units)
      modifies this`sink, stack
      ensures r.OK? <==> WellFormed(units) && !old(Now()).Done? && !old(Now()).Broken?
      ensures r.OK? ==> stack[..depth - 1] == old(stack[..depth - 1])
      ensures r.OK? && TakesValue(old(Now())) ==>
                && Now() == AfterValueState(old(Now()))
                && sink == old(sink) + ValuePrefix(old(Now()), depth - 1, st) + StringText(units, st)
      ensures r.OK? && !TakesValue(old(Now())) ==>
                && Now() == InMapValue
                && sink == old(sink) + KeyPrefix(old(Now()), depth - 1, st) + KeyText(units, st)
      ensures !r.OK? ==> sink == old(sink) && (Now() == Broken || (old(Now()) == Done && WellFormed(units)))
    {
      hide ToUtf8, Escape, Break;
      var utf8 := StringToUtf8(units);
      if utf8.None? {
        r := SetError(InvalidString);
        return;
      }
      ghost var before := Now();
      if Now().InMapStart? || Now().InMapKey? {
        PrefixForKey();
        WriteString(utf8.value[..]);
        Append([COLON] + if st.beauty then [0x20] else []);
        stack[depth - 1] := InMapValue;
        Assoc(old(sink) + KeyPrefix(before, depth - 1, st), StringText(units, st), [COLON] + ColonSpace(st));
        return OK;
      }
      r := PrefixForValue();
      if !r.OK? { return; }
      assert Now() == old(stack[..])[depth - 1];
      assert stack[..depth - 1] == old(stack[..])[..depth - 1] == old(stack[..depth - 1]);
      WriteString(utf8.value[..]);
      r := FinishValue();
    }

    /** array_open and map_open. */
    method Open(bracket: Byte, s: State) returns (r: Result)
      requires Valid()
      modifies this`sink, this`depth, stack
      ensures Valid() && (r.OK? <==> TakesValue(old(Now())) && old(depth) < MAX_STACK)
      ensures r.OK? ==> depth == old(depth) + 1 && Now() == s && stack[..depth - 1] == old(stack[..depth])
      ensures r.OK? ==> sink == old(sink) + ValuePrefix(old(Now()), old(depth) - 1, st) + [bracket]
      ensures !r.OK? ==> Now() == Broken || old(Now()) == Done
    {
      r := PrefixForValue();
      if !r.OK? { return; }
      Append([bracket]);
      assert stack[..depth] == old(stack[..])[..depth] == old(stack[..depth]);
      r := Push(s);
    }

    /** array_close and map_close: the closing bracket on its own line unless the container is empty. */
    method Close(isMap: bool) returns (r: Result)
      requires Valid()
      modifies this`sink, this`depth, stack
      ensures Valid()
      ensures r.OK? ==> (if isMap then old(Now()).InMapStart? || old(Now()).InMapKey?
                         else old(Now()).InArrayStart? || old(Now()).InArray?)
      ensures old(depth) >= 2 && TakesValue(old(stack[depth - 2])) &&
              (if isMap then old(Now()).InMapStart? || old(Now()).InMapKey?
               else old(Now()).InArrayStart? || old(Now()).InArray?) ==>
                && r.OK? && depth == old(depth) - 1
                && Now() == AfterValueState(old(stack[depth - 2])) && stack[..depth - 1] == old(stack[..depth - 2])
                && sink == old(sink) +
                     ((if old(Now()).InMapKey? || old(Now()).InArray? then Break(depth - 1, st) else [])
                                        + [if isMap then CLOSE_BRACE else CLOSE_BRACKET])
    {
      hide Break;
      var state := Now();
      if !(if isMap then state.InMapStart? || state.InMapKey? else state.InArrayStart? || state.InArray?) {
        r := SetError(ErrorState);
        return;
      }
      var used := state.InMapKey? || state.InArray?;
      var bracket := if isMap then CLOSE_BRACE else CLOSE_BRACKET;
      if used && depth >= 2 { AppendBreak(depth - 2); }
      Append([bracket]);
      Assoc(old(sink), if used && depth >= 2 then Break(depth - 2, st) else [], [bracket]);
      assert old(sink) + [] == old(sink);
      if depth <= 1 {
        r := SetError(ErrorState);
        return;
      }
      depth := depth - 1;
      r := FinishValue();
    }

    /** encode_js_value: succeeds exactly on accepted values, and then has written the value's text. */
    method EncodeValue(v: Value) returns (r: Result)
      requires Valid() && Storable(v)
      modifies this`sink, this`depth, stack
      ensures Valid()
      ensures TakesValue(old(Now())) ==> (r.OK? <==> Accepts(v, old(depth)))
      ensures !TakesValue(old(Now())) ==>
                (r.OK? <==> v.Str? && WellFormed(v.units) && (old(Now()).InMapStart? || old(Now()).InMapKey?))
      ensures r.OK? && TakesValue(old(Now())) ==>
                && depth == old(depth) && Now() == AfterValueState(old(Now()))
                && stack[..depth - 1] == old(stack[..depth - 1])
                && sink == old(sink) + ValuePrefix(old(Now()), depth - 1, st) + Text(v, depth - 1, st)
      ensures !r.OK? ==> Now() == Broken || old(Now()) == Done
      decreases v
    {
      hide Break, StringText, ElemsText, MembersText, ElemsHeight, MembersHeight;
      match v {
        case Null => r := Scalar(NULL_TEXT);
        case Bool(b) => r := Scalar(if b then TRUE_TEXT else FALSE_TEXT);
        case Int(i) => r := Scalar(IntText(i));
        case Str(units) => r := StringUnits(units);
        case Arr(elems) => r := EncodeArray(elems);
        case Obj(members) => r := EncodeObject(members);
      }
    }

    method EncodeArray(elems: seq<Value>) returns (r: Result)
      requires Valid() && Storable(Arr(elems))
      modifies this`sink, this`depth, stack
      ensures Valid() && (r.OK? <==> TakesValue(old(Now())) && Accepts(Arr(elems), old(depth)))
      ensures r.OK? ==>
                && depth == old(depth) && Now() == AfterValueState(old(Now()))
                && stack[..depth - 1] == old(stack[..depth - 1])
                && sink == old(sink) + ValuePrefix(old(Now()), depth - 1, st) + Text(Arr(elems), depth - 1, st)
      ensures !r.OK? ==> Now() == Broken || old(Now()) == Done
      decreases elems
    {
      hide Break, Text, Accepts, ElemsLeft, ValuePrefix, Writable;
      AcceptsArray(elems, depth);
      ghost var level, outer := depth - 1, stack[..depth];
      ghost var start := sink + ValuePrefix(Now(), depth - 1, st) + [OPEN_BRACKET];
      r := Open(OPEN_BRACKET, InArrayStart);
      if !r.OK? { return; }
      var k := 0;
      while k < |elems|
        invariant 0 <= k <= |elems| && Valid() && depth == level + 2 && stack[..depth - 1] == outer
        invariant Now() == if k == 0 then InArrayStart else InArray
        invariant forall i :: 0 <= i < k ==> Accepts(elems[i], depth)
        invariant AllWritable(elems) ==>
                    start + ElemsLeft(elems, 0, level, st) == sink + ElemsLeft(elems, k, level, st)
      {
        ghost var was := sink;
        r := EncodeValue(elems[k]);
        if !r.OK? { return; }
        if AllWritable(elems) {
          ElemsLeftStep(elems, k, level, st);
          Regather(was, ValuePrefix(if k == 0 then InArrayStart else InArray, level + 1, st),
                   Text(elems[k], level + 1, st), ElemsLeft(elems, k + 1, level, st));
        }
        k := k + 1;
      }
      AcceptedAll(elems, depth);
      assert Accepts(Arr(elems), depth - 1);
      ghost var was := sink;
      assert stack[..depth - 1][depth - 2] == outer[level];
      r := Close(false);
      ElemsDone(elems, level, st);
      ElemsLeftAll(elems, level, st);
      Assoc(old(sink) + ValuePrefix(old(Now()), depth - 1, st), [OPEN_BRACKET], ElemsLeft(elems, 0, level, st));
    }

    method EncodeObject(members: seq<Member>) returns (r: Result)
      requires Valid() && Storable(Obj(members))
      modifies this`sink, this`depth, stack
      ensures Valid() && (r.OK? <==> TakesValue(old(Now())) && Accepts(Obj(members), old(depth)))
      ensures r.OK? ==>
                && depth == old(depth) && Now() == AfterValueState(old(Now()))
                && stack[..depth - 1] == old(stack[..depth - 1])
                && sink == old(sink) + ValuePrefix(old(Now()), depth - 1, st) + Text(Obj(members), depth - 1, st)
      ensures !r.OK? ==> Now() == Broken || old(Now()) == Done
      decreases members
    {
      hide Break, Text, Accepts, MembersLeft, ValuePrefix, KeyPrefix, Writable, KeyText, WellFormed;
      AcceptsObject(members, depth);
      ghost var level, outer := depth - 1, stack[..depth];
      ghost var start := sink + ValuePrefix(Now(), depth - 1, st) + [OPEN_BRACE];
      r := Open(OPEN_BRACE, InMapStart);
      if !r.OK? { return; }
      var k := 0;
      while k < |members|
        invariant 0 <= k <= |members| && Valid() && depth == level + 2 && stack[..depth - 1] == outer
        invariant Now() == if k == 0 then InMapStart else InMapKey
        invariant forall i :: 0 <= i < k ==> WellFormed(members[i].key) && Accepts(members[i].value, depth)
        invariant MembersWritable(members) ==>
                    start + MembersLeft(members, 0, level, st) == sink + MembersLeft(members, k, level, st)
      {
        r := EncodeMember(members, k, level);
        if !r.OK? { return; }
        k := k + 1;
      }
      AcceptedMembers(members, depth);
      assert Accepts(Obj(members), depth - 1);
      assert stack[..depth - 1][depth - 2] == outer[level];
      r := Close(true);
      MembersDone(members, level, st);
      MembersLeftAll(members, level, st);
      Assoc(old(sink) + ValuePrefix(old(Now()), depth - 1, st), [OPEN_BRACE], MembersLeft(members, 0, level, st));
    }

    /** One key and its value. */
    method EncodeMember(members: seq<Member>, k: nat, ghost level: nat) returns (r: Result)
      requires Valid() && k < |members| && Storable(Obj(members)) && depth == level + 2
      requires Now() == if k == 0 then InMapStart else InMapKey
      modifies this`sink, this`depth, stack
      ensures Valid() && (r.OK? <==> WellFormed(members[k].key) && Accepts(members[k].value, old(depth)))
      ensures r.OK? ==> depth == old(depth) && Now() == InMapKey && stack[..depth - 1] == old(stack[..depth - 1])
      ensures r.OK? && MembersWritable(members) ==>
                old(sink) + MembersLeft(members, k, level, st) == sink + MembersLeft(members, k + 1, level, st)
      ensures !r.OK? ==> Now() == Broken
      decreases members, 0
    {
      hide Break, Text, Accepts, MembersLeft, Writable, KeyText, WellFormed;
      r := StringUnits(members[k].key);
      if !r.OK? { return; }
      r := EncodeValue(members[k].value);
      if !r.OK? { return; }
      if MembersWritable(members) {
        MembersLeftStep(members, k, level, st);
        Regather4(old(sink), KeyPrefix(if k == 0 then InMapStart else InMapKey, level + 1, st),
                  KeyText(members[k].key, st), Text(members[k].value, level + 1, st),
                  MembersLeft(members, k + 1, level, st));
      }
    }
  }

  lemma Regather(s: Bytes, p: Bytes, t: Bytes, tail: Bytes)
    ensures s + (p + t + tail) == s + p + t + tail
  {
    Assoc(s, p + t, tail);
    Assoc(s, p, t);
  }

  lemma Regather4(s: Bytes, p: Bytes, k: Bytes, t: Bytes, tail: Bytes)
    ensures s + (p + k + t + tail) == s + p + k + [] + t + tail
  {
    Assoc(s, p + k + t, tail);
    Assoc(s, p + k, t);
    Assoc(s, p, k);
    assert s + p + k + [] == s + p + k;
  }

  lemma AcceptedAll(elems: seq<Value>, depth: nat)
    requires forall i :: 0 <= i < |elems| ==> Accepts(elems[i], depth)
    ensures AcceptsElems(elems, depth) && AllWritable(elems) && Writable(Arr(elems))
  {
  }

  lemma AcceptedMembers(members: seq<Member>, depth: nat)
    requires DistinctKeys(members)
    requires forall i :: 0 <= i < |members| ==> WellFormed(members[i].key) && Accepts(members[i].value, depth)
    ensures AcceptsMembers(members, depth) && MembersWritable(members) && Writable(Obj(members))
  {
  }

  lemma ElemsDone(elems: seq<Value>, level: nat, st: Style)
    requires AllWritable(elems)
    ensures ElemsLeft(elems, |elems|, level, st) == (if elems == [] then [] else Break(level, st)) + [CLOSE_BRACKET]
  {
  }

  lemma MembersDone(members: seq<Member>, level: nat, st: Style)
    requires MembersWritable(members)
    ensures MembersLeft(members, |members|, level, st)
         == (if members == [] then [] else Break(level, st)) + [CLOSE_BRACE]
  {
  }

  /** Writing a value and parsing the text gives it back. */
  method WriteAndParse(v: Value, st: Style, inRange: Bytes -> bool) returns (text: Option<Bytes>)
    requires Storable(v) && AllWs(st.indent)
    ensures text.Some? <==> Accepts(v, 1)
    ensures text.Some? ==> JsonParse.Parse(text.value, inRange) == Some(v)
  {
    hide Text, JsonParse.Parse, Storable;
    var g := new Generator(st);
    var r := g.EncodeValue(v);
    if !r.OK? { return None; }
    RoundTrip(v, st, inRange);
    assert [] + ValuePrefix(Begun, 0, st) + Text(v, 0, st) == Text(v, 0, st);
    return Some(g.sink);
  }

  lemma {:induction false} RepeatNothing(n: nat)
    ensures Repeat([], n) == []
  {
    if n > 0 { RepeatNothing(n - 1); }
  }
}
