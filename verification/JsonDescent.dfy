/**
 The one-shot parser object: a cursor over the text that the recursive methods
 move, proved to read exactly what the functions of JsonParse say.
 */
module JsonDescent {
  import opened Octets
  import opened JsonLex
  import opened JsonStream
  import opened JsonParse
  import opened JsonParsers

  class OneShotParser {
    const data: Bytes
    const inRange: Bytes -> bool
    var pos: nat

    constructor (data: Bytes, inRange: Bytes -> bool)
      ensures this.data == data && this.inRange == inRange && pos == 0
    {
      this.data, this.inRange := data, inRange;
      pos := 0;
    }

    /** The method read `r` from the place `start`: it moved the cursor past it, or failed. */
    ghost predicate Moved<T(!new)>(start: nat, r: Scan<T>, result: Option<T>)
      reads this
    {
      && start <= pos <= |data|
      && (r.Ok? <==> result.Some?)
      && (r.Ok? ==> result.value == r.value && pos == start + r.used)
    }

    method SkipWs()
      requires pos <= |data|
      modifies this`pos
      ensures pos == old(pos) + WsCount(data[old(pos)..]) && pos <= |data|
      ensures data[pos..] == data[old(pos)..][WsCount(data[old(pos)..])..]
    {
      hide WsCount;
      ghost var s := data[pos..];
      pos := SkipSpace(data, pos);
      assert data[pos..] == s[WsCount(s)..];
    }

    method ParseString() returns (result: Option<Units>)
      requires pos < |data| && data[pos] == QUOTE
      modifies this`pos
      ensures Moved(old(pos) + 1, StringBody(data[old(pos) + 1..], true), result) || (result.None? && pos == old(pos))
      ensures result.None? <==> !StringBody(data[old(pos) + 1..], true).Ok?
    {
      hide StringBody;
      var r := ScanString(data, pos, true);
      if !r.Ok? { return None; }
      assert r.value == StringBody(data[pos + 1..], true).value;
      pos := r.used;
      return Some(r.value);
    }

    method ParseScalar() returns (result: Option<Value>)
      requires pos < |data|
      modifies this`pos
      ensures Moved(old(pos), PlainScalar(data[old(pos)..], inRange), result)
    {
      hide StringBody, NumberExtent, NumberValue;
      ghost var s := data[pos..];
      if data[pos] == QUOTE {
        assert s[1..] == data[pos + 1..];
        var text := ParseString();
        return if text.Some? then Some(Str(text.value)) else None;
      }
      var r: Scan<Value>;
      if data[pos] == MINUS || IsDigit(data[pos]) {
        var e := ScanNumber(data[pos..]);
        r := if e.Extent? then NumberValue(data[pos..][..e.total], e.whole < e.total, inRange) else Error;
      } else {
        r := ScalarAt(data[pos..], true, inRange);
      }
      if !r.Ok? { return None; }
      pos := pos + r.used;
      return Some(r.value);
    }

    method ParseValueHere() returns (result: Option<Value>)
      requires pos <= |data|
      modifies this`pos
      ensures Moved(old(pos), ParseValue(data[old(pos)..], inRange), result)
      decreases |data| - pos, 1
    {
      hide WsCount, PlainScalar, ArrayBody, ObjectBody;
      ghost var s := data[pos..];
      SkipWs();
      if pos == |data| { return None; }
      assert s[WsCount(s)] == data[pos];
      if data[pos] == OPEN_BRACE {
        pos := pos + 1;
        assert AfterNext(s) == data[pos..];
        result := ParseObject();
      } else if data[pos] == OPEN_BRACKET {
        pos := pos + 1;
        assert AfterNext(s) == data[pos..];
        result := ParseArray();
      } else {
        result := ParseScalar();
      }
    }

    /** A container that closes at once; if it does not, only white space is skipped. */
    method Empty(close: int) returns (empty: bool)
      requires pos <= |data|
      modifies this`pos
      ensures old(pos) <= pos <= |data| && empty == NextIs(data[old(pos)..], close)
      ensures pos == old(pos) + WsCount(data[old(pos)..]) + if empty then 1 else 0
      ensures !empty ==> data[pos..] == data[old(pos)..][WsCount(data[old(pos)..])..]
    {
      hide WsCount;
      ghost var s := data[pos..];
      SkipWs();
      assert pos < |data| ==> data[pos] == s[WsCount(s)];
      empty := pos < |data| && data[pos] == close;
      if empty { pos := pos + 1; }
    }

    /** What stands after a value: a comma or the end of the container. */
    method Separator(close: int) returns (more: bool, closed: bool)
      requires pos <= |data| && close != COMMA
      modifies this`pos
      ensures more == NextIs(data[old(pos)..], COMMA) && closed == NextIs(data[old(pos)..], close)
      ensures old(pos) <= pos <= |data| && !(more && closed)
      ensures more || closed ==>
                pos == old(pos) + WsCount(data[old(pos)..]) + 1 && data[pos..] == AfterNext(data[old(pos)..])
    {
      hide WsCount;
      ghost var rest := data[pos..];
      SkipWs();
      assert pos < |data| ==> data[pos] == rest[WsCount(rest)];
      if pos == |data| { return false, false; }
      if data[pos] == COMMA {
        pos := pos + 1;
        return true, false;
      }
      if data[pos] == close {
        pos := pos + 1;
        return false, true;
      }
      return false, false;
    }

    /** After the opening bracket. */
    method ParseArray() returns (result: Option<Value>)
      requires pos <= |data|
      modifies this`pos
      ensures Moved(old(pos), ArrayBody(data[old(pos)..], inRange), result)
      decreases |data| - pos, 2
    {
      hide WsCount, ParseValue, ParseElems, NextIs, AfterNext;
      ghost var start, s := pos, data[pos..];
      var empty := Empty(CLOSE_BRACKET);
      if empty { return Some(Arr([])); }
      ElemsSkip(s, [], inRange);
      var elems: seq<Value> := [];
      while true
        invariant start <= pos <= |data|
        invariant !NextIs(s, CLOSE_BRACKET)
        invariant ParseElems(s, [], inRange) == Shift(ParseElems(data[pos..], elems, inRange), pos - start)
        decreases |data| - pos
      {
        ghost var here := data[pos..];
        ElemsUnfold(here, elems, inRange);
        var v := ParseValueHere();
        if v.None? { return None; }
        ghost var rest := here[ParseValue(here, inRange).used..];
        assert data[pos..] == rest;
        elems := elems + [v.value];
        var more, closed := Separator(CLOSE_BRACKET);
        if closed { return Some(Arr(elems)); }
        if !more { return None; }
      }
    }

    /** After the opening brace. */
    method ParseObject() returns (result: Option<Value>)
      requires pos <= |data|
      modifies this`pos
      ensures Moved(old(pos), ObjectBody(data[old(pos)..], inRange), result)
      decreases |data| - pos, 2
    {
      hide WsCount, ParseMembers, MemberPart, SetMember, NextIs, AfterNext;
      ghost var start, s := pos, data[pos..];
      var empty := Empty(CLOSE_BRACE);
      if empty { return Some(Obj([])); }
      MembersSkip(s, [], inRange);
      var members: seq<Member> := [];
      while true
        invariant start <= pos <= |data|
        invariant !NextIs(s, CLOSE_BRACE)
        invariant ParseMembers(s, [], inRange) == Shift(ParseMembers(data[pos..], members, inRange), pos - start)
        decreases |data| - pos
      {
        ghost var here := data[pos..];
        MembersUnfold(here, members, inRange);
        var member := ParseMember();
        if member.None? { return None; }
        ghost var rest := here[MemberPart(here, inRange).used..];
        assert data[pos..] == rest;
        members := SetMember(members, member.value.key, member.value.value);
        var more, closed := Separator(CLOSE_BRACE);
        if closed { return Some(Obj(members)); }
        if !more { return None; }
      }
    }

    method ParseMember() returns (member: Option<Member>)
      requires pos <= |data|
      modifies this`pos
      ensures Moved(old(pos), MemberPart(data[old(pos)..], inRange), member)
      decreases |data| - pos, 1
    {
      hide KeyPart, ParseValue;
      ghost var here := data[pos..];
      var key := ParseKey();
      if key.None? { return None; }
      assert data[pos..] == here[KeyPart(here).used..];
      var v := ParseValueHere();
      return if v.Some? then Some(Member(key.value, v.value)) else None;
    }

    /** A quoted key and its colon. */
    method ParseKey() returns (key: Option<Units>)
      requires pos <= |data|
      modifies this`pos
      ensures Moved(old(pos), KeyPart(data[old(pos)..]), key)
    {
      hide WsCount, StringBody;
      ghost var s := data[pos..];
      SkipWs();
      assert pos < |data| ==> data[pos] == s[WsCount(s)];
      if pos == |data| || data[pos] != QUOTE { return None; }
      assert AfterNext(s) == data[pos + 1..];
      key := ParseString();
      if key.None? { return; }
      ghost var mid := data[pos..];
      assert mid == AfterNext(s)[StringBody(AfterNext(s), true).used..];
      SkipWs();
      assert pos < |data| ==> data[pos] == mid[WsCount(mid)];
      if pos == |data| || data[pos] != COLON { return None; }
      pos := pos + 1;
    }

    /** Parser::parse. */
    method ParseAll() returns (result: Option<Value>)
      requires pos == 0
      modifies this`pos
      ensures result == Parse(data, inRange)
    {
      hide WsCount, ParseValue;
      assert data[0..] == data;
      SkipWs();
      ValueSkips(data, inRange);
      ghost var t := data[pos..];
      result := ParseValueHere();
      if result.None? { return; }
      ghost var r := ParseValue(t, inRange);
      assert data[pos..] == data[ParseValue(data, inRange).used..];
      SkipWs();
      if pos != |data| { return None; }
    }
  }
}
