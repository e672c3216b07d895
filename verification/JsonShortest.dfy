/**
 The compact text the generator writes for a value is the shortest text of the
 grammar that means it.
 */
module JsonShortest {
  import opened Octets
  import opened JsonLex
  import opened JsonStream
  import opened JsonUtf
  import opened JsonText
  import R = JsonRoundTrip
  import G = JsonGrammar
  import P = JsonGrammarProofs

  const COMPACT: Style := Style(false, [], false)

  // ---------------------------------------------------------------- the shortest text

  /** The length of the compact text; nothing for a value that is not written. */
  function Cost(v: Value): nat {
    if Writable(v) then |Text(v, 0, COMPACT)| else 0
  }

  function KeyCost(key: Units): nat {
    if WellFormed(key) then |StringText(key, COMPACT)| else 0
  }

  /** Each element with the comma or bracket behind it. */
  function ElemsCost(elems: seq<Value>): nat {
    if elems == [] then 0 else Cost(elems[0]) + 1 + ElemsCost(elems[1..])
  }

  /** Each member with its colon and the comma or brace behind it. */
  function MembersCost(members: seq<Member>): nat {
    if members == [] then 0
    else KeyCost(members[0].key) + 1 + Cost(members[0].value) + 1 + MembersCost(members[1..])
  }

  /** The compact text is the same at every level. */
  lemma {:induction false} LevelIsNothing(v: Value, level: nat)
    requires Writable(v)
    ensures Text(v, level, COMPACT) == Text(v, 0, COMPACT)
    decreases v, 0
  {
    match v {
      case Arr(elems) => if elems != [] { ElemsLevel(elems, level, 0); }
      case Obj(members) => if members != [] { MembersLevel(members, level, 0); }
      case _ =>
    }
  }

  lemma {:induction false} ElemsLevel(elems: seq<Value>, level: nat, other: nat)
    requires elems != [] && AllWritable(elems)
    ensures ElemsText(elems, level, COMPACT) == ElemsText(elems, other, COMPACT)
    decreases elems, 1
  {
    hide Text;
    LevelIsNothing(elems[0], level + 1);
    LevelIsNothing(elems[0], other + 1);
    if |elems| > 1 { ElemsLevel(elems[1..], level, other); }
  }

  lemma {:induction false} MembersLevel(members: seq<Member>, level: nat, other: nat)
    requires members != [] && MembersWritable(members)
    ensures MembersText(members, level, COMPACT) == MembersText(members, other, COMPACT)
    decreases members, 1
  {
    hide Text, StringText;
    LevelIsNothing(members[0].value, level + 1);
    LevelIsNothing(members[0].value, other + 1);
    if |members| > 1 { MembersLevel(members[1..], level, other); }
  }

  lemma {:induction false} ElemsLength(elems: seq<Value>)
    requires elems != [] && AllWritable(elems)
    ensures |ElemsText(elems, 0, COMPACT)| == ElemsCost(elems)
  {
    hide Text, Writable;
    LevelIsNothing(elems[0], 1);
    if |elems| > 1 {
      ElemsLength(elems[1..]);
    } else {
      assert ElemsCost(elems[1..]) == 0;
    }
  }

  lemma {:induction false} MembersLength(members: seq<Member>)
    requires members != [] && MembersWritable(members)
    ensures |MembersText(members, 0, COMPACT)| == MembersCost(members)
  {
    hide Text, StringText, Writable, WellFormed;
    LevelIsNothing(members[0].value, 1);
    if |members| > 1 {
      MembersLength(members[1..]);
    } else {
      assert MembersCost(members[1..]) == 0;
    }
  }

  lemma {:induction false} SetMemberCost(members: seq<Member>, key: Units, v: Value)
    ensures MembersCost(SetMember(members, key, v)) <= MembersCost(members) + KeyCost(key) + 1 + Cost(v) + 1
  {
    hide Cost, KeyCost;
    if members == [] {
      assert [Member(key, v)][1..] == [];
    } else {
      SetMemberCost(members[1..], key, v);
      var tail := if members[0].key == key then members[1..] else SetMember(members[1..], key, v);
      var first := if members[0].key == key then Member(key, v) else members[0];
      assert SetMember(members, key, v) == [first] + tail;
      assert ([first] + tail)[1..] == tail;
    }
  }

  // ---------------------------------------------------------------- strings

  /** The code point a written character stands for. */
  function Point(c: G.Char): int
    requires G.CharOk(c)
  {
    match c
    case Raw(code) => code
    case Letter(b) => G.LETTERS[b]
    case Unicode(q) => G.QuadValue(q)
    case Pair(h, l) => 0x10000 + (G.QuadValue(h) - 0xD800) * 0x400 + (G.QuadValue(l) - 0xDC00)
  }

  lemma PointIs(c: G.Char)
    requires G.CharOk(c)
    ensures IsScalar(Point(c)) && UnitsOf(Point(c)) == G.CharUnits(c)
  {
    if c.Raw? { P.RawUnits(c.code); }
    if c.Pair? { P.PairUnits(G.QuadValue(c.high), G.QuadValue(c.low)); }
  }

  /** No way to write a character is shorter than the generator's. */
  lemma PointIsShort(c: G.Char)
    requires G.CharOk(c)
    ensures |Escape(EncodePoint(Point(c)), COMPACT)| <= |G.CharText(c)|
  {
    hide Escape;
    var code := Point(c);
    PointIs(c);
    if code < 0x80 {
      OneEscape(code);
    } else {
      HighBytes(code);
      R.EscapeHigh(EncodePoint(code), COMPACT);
    }
  }

  lemma OneEscape(b: Byte)
    requires b < 0x80
    ensures Escape(EncodePoint(b), COMPACT) == EscapeByte(b, COMPACT)
  {
    assert EncodePoint(b) == [b] && [b][1..] == [];
    assert Escape([], COMPACT) == [];
  }

  lemma HighBytes(code: int)
    requires 0x80 <= code <= 0x10FFFF
    ensures forall i :: 0 <= i < |EncodePoint(code)| ==> EncodePoint(code)[i] >= 0x80
  {
  }

  lemma {:induction false} CharsLength(chars: seq<G.Char>, rest: Bytes)
    requires G.CharsOk(chars)
    ensures WellFormed(G.CharsUnits(chars))
    ensures |Escape(ToUtf8(G.CharsUnits(chars)).value, COMPACT)| + 1 + |rest| <= |G.CharsOn(chars, rest)|
  {
    hide Escape, EncodePoint, NextPoint, G.CharOk, G.CharText, G.CharUnits, UnitsOf;
    if chars == [] {
      assert Escape([], COMPACT) == [] by { NoEscape(); }
    } else {
      var code, units := Point(chars[0]), G.CharsUnits(chars[1..]);
      CharsLength(chars[1..], rest);
      PointIs(chars[0]);
      PointIsShort(chars[0]);
      UnitsReadBack(code, units);
      var all := UnitsOf(code) + units;
      assert all[|UnitsOf(code)|..] == units;
      R.EscapeConcat(EncodePoint(code), ToUtf8(units).value, COMPACT);
    }
  }

  lemma NoEscape()
    ensures Escape([], COMPACT) == []
  {
  }

  lemma KeyLength(chars: seq<G.Char>, rest: Bytes)
    requires G.CharsOk(chars)
    ensures KeyCost(G.CharsUnits(chars)) + |rest| <= 1 + |G.CharsOn(chars, rest)|
  {
    hide Escape, ToUtf8, G.CharsOn, G.CharsUnits, AreUnits;
    CharsLength(chars, rest);
  }

  // ---------------------------------------------------------------- numbers

  lemma {:induction false} DigitsLength(ds: Bytes)
    requires G.AreDigits(ds)
    ensures 0 <= Decimal(ds) && |Digits(Decimal(ds))| <= |ds|
  {
    var init, last := ds[..|ds| - 1], ds[|ds| - 1];
    if |ds| == 1 {
      assert init == [];
    } else {
      DigitsLength(init);
      var n := Decimal(init);
      assert Decimal(ds) == n * 10 + (last - ZERO);
      assert (n * 10 + (last - ZERO)) / 10 == n;
    }
  }

  lemma NumeralLength(n: G.Numeral)
    requires G.NumeralOk(n) && G.IsInteger(n)
    ensures |IntText(G.IntegerValue(n))| <= |G.NumeralText(n)|
  {
    hide Digits, Decimal, G.Positional;
    DigitsLength(n.whole);
    P.PositionalIs(n.whole);
    OneDigit();
  }

  lemma OneDigit()
    ensures |Digits(0)| == 1
  {
  }

  // ---------------------------------------------------------------- values

  lemma {:induction false} DocLength(doc: G.Doc, rest: Bytes, inRange: Bytes -> bool)
    requires G.DocOk(doc, inRange)
    ensures Cost(G.Meaning(doc, inRange)) + |rest| <= |G.DocOn(doc, rest, inRange)|
    decreases doc, 0
  {
    hide Writable, ElemsText, MembersText, IntText, StringText, G.CharsOn, G.CharsUnits, G.NumeralText, G.ItemsOn,
      G.FieldsOn, G.Meanings, G.Members, ElemsCost, MembersCost, G.InRange, G.NumeralOk;
    match doc {
      case Number(n) =>
        FloatCost(G.NumeralText(n));
        if G.IsInteger(n) { NumeralLength(n); }
      case Text(chars) =>
        StringCost(G.CharsUnits(chars));
        KeyLength(chars, rest);
      case List(_, items) =>
        if items != [] { ItemsLength(items, rest, inRange); }
        ListLength(doc, rest, inRange);
      case Table(_, fields) =>
        if fields != [] { FieldsLength([], fields, rest, inRange); }
        TableLength(doc, rest, inRange);
      case _ =>
    }
  }

  lemma FloatCost(text: Bytes)
    ensures Cost(Float(text)) == 0
  {
  }

  lemma StringCost(units: Units)
    ensures Cost(Str(units)) == KeyCost(units)
  {
  }

  lemma ListLength(doc: G.Doc, rest: Bytes, inRange: Bytes -> bool)
    requires doc.List? && G.DocOk(doc, inRange)
    requires doc.items != [] ==>
               ElemsCost(G.Meanings(doc.items, inRange)) + |rest| <= |G.ItemsOn(doc.items, rest, inRange)|
    ensures Cost(G.Meaning(doc, inRange)) + |rest| <= |G.DocOn(doc, rest, inRange)|
  {
    hide ElemsText, G.ItemsOn, ElemsCost;
    var elems := G.Meanings(doc.items, inRange);
    assert doc.items == [] ==> elems == [];
    assert doc.items != [] ==> elems != [];
    if Writable(Arr(elems)) && elems != [] { ElemsLength(elems); }
  }

  lemma TableLength(doc: G.Doc, rest: Bytes, inRange: Bytes -> bool)
    requires doc.Table? && G.DocOk(doc, inRange)
    requires doc.fields != [] ==>
               MembersCost(G.Members([], doc.fields, inRange)) + |rest| <=
               |G.FieldsOn(doc.fields, rest, inRange)| + MembersCost([])
    ensures Cost(G.Meaning(doc, inRange)) + |rest| <= |G.DocOn(doc, rest, inRange)|
  {
    hide MembersText, G.FieldsOn, G.Members;
    var members := G.Members([], doc.fields, inRange);
    if doc.fields == [] { NoMembers(inRange); } else { SomeMembers([], doc.fields, inRange); }
    if Writable(Obj(members)) && members != [] { MembersLength(members); }
  }

  lemma NoMembers(inRange: Bytes -> bool)
    ensures G.Members([], [], inRange) == []
  {
  }

  lemma {:induction false} SomeMembers(done: seq<Member>, fields: seq<G.Field>, inRange: Bytes -> bool)
    requires (done != [] || fields != []) && G.FieldsOk(fields, inRange)
    ensures G.Members(done, fields, inRange) != []
    decreases fields
  {
    hide G.Meaning, G.CharsUnits, G.DocOk;
    if fields != [] {
      var v := G.Meaning(fields[0].doc, inRange);
      SomeMembers(SetMember(done, G.CharsUnits(fields[0].key), v), fields[1..], inRange);
    }
  }

  lemma {:induction false} ItemsLength(items: seq<G.Item>, rest: Bytes, inRange: Bytes -> bool)
    requires items != [] && G.ItemsOk(items, inRange)
    ensures ElemsCost(G.Meanings(items, inRange)) + |rest| <= |G.ItemsOn(items, rest, inRange)|
    decreases items, 1
  {
    hide Cost, G.DocOn, G.Meaning, G.DocOk, G.Blank;
    var v, more := G.Meaning(items[0].doc, inRange), G.Meanings(items[1..], inRange);
    DocLength(items[0].doc, G.ItemsTail(items, rest, inRange), inRange);
    assert G.Meanings(items, inRange) == [v] + more;
    assert ([v] + more)[1..] == more;
    if |items| > 1 {
      ItemsLength(items[1..], rest, inRange);
    } else {
      assert more == [] && ElemsCost(more) == 0;
    }
  }

  lemma {:induction false} FieldsLength(done: seq<Member>, fields: seq<G.Field>, rest: Bytes, inRange: Bytes -> bool)
    requires fields != [] && G.FieldsOk(fields, inRange)
    ensures MembersCost(G.Members(done, fields, inRange)) + |rest| <=
            |G.FieldsOn(fields, rest, inRange)| + MembersCost(done)
    decreases fields, 1
  {
    hide Cost, KeyCost, G.DocOn, G.Meaning, G.DocOk, G.Blank, G.CharsOn, G.CharsUnits, SetMember, MembersCost;
    var f, on := fields[0], G.FieldOn(fields, rest, inRange);
    var key, v := G.CharsUnits(f.key), G.Meaning(f.doc, inRange);
    DocLength(f.doc, G.FieldsTail(fields, rest, inRange), inRange);
    KeyLength(f.key, f.gap + ([COLON] + on));
    SetMemberCost(done, key, v);
    if |fields| > 1 {
      FieldsLength(SetMember(done, key, v), fields[1..], rest, inRange);
    } else {
      assert G.Members(done, fields, inRange) == SetMember(done, key, v);
    }
  }

  /** No text that means the value is shorter than the generator's compact one. */
  lemma Shortest(s: Bytes, v: Value, inRange: Bytes -> bool)
    requires Writable(v) && G.Denotes(s, v, inRange)
    ensures |Text(v, 0, COMPACT)| <= |s|
  {
    hide Writable, Text, G.DocOn, G.Meaning, G.DocOk, G.Blank;
    var before, doc, after :| G.IsText(s, before, doc, after, inRange) && G.Meaning(doc, inRange) == v;
    DocLength(doc, after, inRange);
  }

  // ---------------------------------------------------------------- what is read can be written

  predicate NoFloats(v: Value) {
    match v
    case Float(_) => false
    case Arr(elems) => forall i :: 0 <= i < |elems| ==> NoFloats(elems[i])
    case Obj(members) => forall i :: 0 <= i < |members| ==> NoFloats(members[i].value)
    case _ => true
  }

  /** Float or writable, with a proper key. */
  predicate MemberOk(m: Member) {
    WellFormed(m.key) && (NoFloats(m.value) ==> Writable(m.value))
  }

  predicate MembersOk(members: seq<Member>) {
    DistinctKeys(members) && forall i :: 0 <= i < |members| ==> MemberOk(members[i])
  }

  lemma {:induction false} SetMemberOk(members: seq<Member>, key: Units, v: Value)
    requires MembersOk(members) && MemberOk(Member(key, v))
    ensures MembersOk(SetMember(members, key, v))
    ensures forall i :: 0 <= i < |SetMember(members, key, v)| ==>
              SetMember(members, key, v)[i].key == key ||
              exists j :: 0 <= j < |members| && members[j].key == SetMember(members, key, v)[i].key
  {
    hide MemberOk;
    if members != [] {
      var r := SetMember(members, key, v);
      if members[0].key == key {
        assert r == [Member(key, v)] + members[1..];
        forall i | 0 <= i < |r| ensures r[i].key == members[i].key && MemberOk(r[i]) {}
      } else {
        var t := SetMember(members[1..], key, v);
        SetMemberOk(members[1..], key, v);
        assert r == [members[0]] + t;
        forall i | 0 <= i < |t|
          ensures t[i].key != members[0].key
          ensures t[i].key == key || exists j :: 0 <= j < |members| && members[j].key == t[i].key
        {
          if t[i].key != key {
            var j :| 0 <= j < |members[1..]| && members[1..][j].key == t[i].key;
            assert members[j + 1].key == t[i].key;
          }
        }
      }
    }
  }

  lemma {:induction false} MeaningIsWritable(doc: G.Doc, inRange: Bytes -> bool)
    requires G.DocOk(doc, inRange)
    ensures NoFloats(G.Meaning(doc, inRange)) ==> Writable(G.Meaning(doc, inRange))
    decreases doc, 0
  {
    hide G.CharsOk, G.CharsUnits, G.IntegerValue, WellFormed;
    match doc {
      case Text(chars) => CharsLength(chars, []);
      case List(_, items) => ItemsAreWritable(items, inRange);
      case Table(_, fields) => FieldsAreWritable([], fields, inRange);
      case _ =>
    }
  }

  lemma {:induction false} ItemsAreWritable(items: seq<G.Item>, inRange: Bytes -> bool)
    requires G.ItemsOk(items, inRange)
    ensures forall i :: 0 <= i < |G.Meanings(items, inRange)| ==>
              NoFloats(G.Meanings(items, inRange)[i]) ==> Writable(G.Meanings(items, inRange)[i])
    decreases items, 1
  {
    hide G.Meaning, Writable, NoFloats;
    if items != [] {
      MeaningIsWritable(items[0].doc, inRange);
      ItemsAreWritable(items[1..], inRange);
    }
  }

  lemma {:induction false} FieldsAreWritable(done: seq<Member>, fields: seq<G.Field>, inRange: Bytes -> bool)
    requires G.FieldsOk(fields, inRange) && MembersOk(done)
    ensures MembersOk(G.Members(done, fields, inRange))
    decreases fields, 1
  {
    hide G.Meaning, Writable, NoFloats, WellFormed, MembersOk, SetMember, G.CharsUnits;
    if fields != [] {
      var key, v := G.CharsUnits(fields[0].key), G.Meaning(fields[0].doc, inRange);
      MeaningIsWritable(fields[0].doc, inRange);
      CharsLength(fields[0].key, []);
      SetMemberOk(done, key, v);
      FieldsAreWritable(SetMember(done, key, v), fields[1..], inRange);
    }
  }

  /** Whatever is read and holds no float can be written. */
  lemma ReadIsWritable(s: Bytes, v: Value, inRange: Bytes -> bool)
    requires G.Denotes(s, v, inRange) && NoFloats(v)
    ensures Writable(v)
  {
    hide Writable, NoFloats, G.DocOn, G.Meaning, G.DocOk, G.Blank;
    var before, doc, after :| G.IsText(s, before, doc, after, inRange) && G.Meaning(doc, inRange) == v;
    MeaningIsWritable(doc, inRange);
  }
}
