/**
 The lexer against the grammar: what is written as a character, a string or a
 number is read as what it means, and what is read was written so.
 */
module JsonGrammarProofs {
  import opened Octets
  import opened JsonLex
  import opened JsonStream
  import opened JsonParse
  import opened JsonUtf
  import opened JsonRoundTrip
  import G = JsonGrammar

  // ---------------------------------------------------------------- escapes

  lemma QuadBack(q: seq<G.Hex>, s: Bytes)
    requires G.IsQuad(q) && |s| >= 4
    requires forall i :: 0 <= i < 4 ==> s[i] == G.HexByte(q[i])
    ensures Hex4(s) == G.QuadValue(q)
  {
    forall i | 0 <= i < 4 ensures HexValue(s[i]) == q[i].value { assert s[i] == G.HexByte(q[i]); }
  }

  lemma QuadAt(q: seq<G.Hex>, rest: Bytes)
    requires G.IsQuad(q)
    ensures var s := G.QuadText(q) + rest; s[6..] == rest && Hex4(s[2..6]) == G.QuadValue(q)
  {
    QuadBack(q, (G.QuadText(q) + rest)[2..6]);
  }

  /** The digits read are the digits of some spelling. */
  lemma QuadOf(s: Bytes) returns (q: seq<G.Hex>)
    requires |s| == 4 && Hex4(s) >= 0
    ensures G.IsQuad(q) && G.QuadValue(q) == Hex4(s)
    ensures forall i :: 0 <= i < 4 ==> s[i] == G.HexByte(q[i])
  {
    var a := HexOf(s[0]);
    var b := HexOf(s[1]);
    var c := HexOf(s[2]);
    var d := HexOf(s[3]);
    q := [a, b, c, d];
  }

  lemma HexOf(b: Byte) returns (h: G.Hex)
    requires HexValue(b) >= 0
    ensures h.value == HexValue(b) && h.value < 16 && G.HexByte(h) == b
  {
    h := G.Hex(HexValue(b), b < 0x61);
  }

  ghost predicate StartsWithLow(s: Bytes) {
    exists q :: G.IsQuad(q) && 0xDC00 <= G.QuadValue(q) <= 0xDFFF && G.QuadText(q) <= s
  }

  lemma LowStarts(s: Bytes)
    requires |s| >= 6 && s[0] == BACKSLASH && s[1] == LOWER_U && IsLow(Hex4(s[2..6]))
    ensures StartsWithLow(s)
  {
    hide Hex4;
    var q := QuadOf(s[2..6]);
    assert G.QuadText(q) <= s;
  }

  /** A surrogate written without its other half is refused. */
  lemma LoneSurrogate(q: seq<G.Hex>, rest: Bytes)
    requires G.IsQuad(q)
    requires 0xDC00 <= G.QuadValue(q) <= 0xDFFF || (0xD800 <= G.QuadValue(q) <= 0xDBFF && !StartsWithLow(rest))
    ensures Element(G.QuadText(q) + rest, true) == Error
  {
    hide Hex4, StartsWithLow;
    QuadAt(q, rest);
    var s := G.QuadText(q) + rest;
    if |s| >= 12 {
      assert rest[2..6] == s[8..12];
      if rest[0] == BACKSLASH && rest[1] == LOWER_U && IsLow(Hex4(rest[2..6])) { LowStarts(rest); }
    }
  }

  // ---------------------------------------------------------------- characters

  lemma RawUnits(code: int)
    requires IsScalar(code)
    ensures UnitsOf(code) == if code < 0x10000 then [code] else [0xD7C0 + code / 0x400, 0xDC00 + code % 0x400]
  {
  }

  lemma RawBack(code: nat, rest: Bytes)
    requires G.CharOk(G.Raw(code))
    ensures var s := EncodePoint(code) + rest;
            s[0] != QUOTE && Element(s, true) == Ok(G.CharUnits(G.Raw(code)), |EncodePoint(code)|)
  {
    hide DecodePoint;
    ReadsBack(code, rest);
    RawUnits(code);
    RawStarts(code);
  }

  lemma RawStarts(code: nat)
    requires G.CharOk(G.Raw(code))
    ensures EncodePoint(code)[0] >= 0x20 && EncodePoint(code)[0] != QUOTE && EncodePoint(code)[0] != BACKSLASH
  {
  }

  lemma PairUnits(high: int, low: int)
    requires 0xD800 <= high <= 0xDBFF && 0xDC00 <= low <= 0xDFFF
    ensures UnitsOf(0x10000 + (high - 0xD800) * 0x400 + (low - 0xDC00)) == [high, low]
  {
  }

  lemma PairBack(h: seq<G.Hex>, l: seq<G.Hex>, rest: Bytes)
    requires G.CharOk(G.Pair(h, l))
    ensures Element(G.QuadText(h) + (G.QuadText(l) + rest), true) == Ok([G.QuadValue(h), G.QuadValue(l)], 12)
  {
    hide Hex4, UnitsOf;
    var more := G.QuadText(l) + rest;
    var s := G.QuadText(h) + more;
    QuadAt(h, more);
    QuadAt(l, rest);
    assert s[8..12] == more[2..6];
    PairUnits(G.QuadValue(h), G.QuadValue(l));
  }

  /** Every written character is read as the units it stands for. */
  lemma CharBack(c: G.Char, rest: Bytes)
    requires G.CharOk(c)
    ensures G.CharText(c)[0] != QUOTE
    ensures Element(G.CharText(c) + rest, true) == Ok(G.CharUnits(c), |G.CharText(c)|)
  {
    hide Hex4, DecodePoint;
    match c {
      case Raw(code) => RawBack(code, rest);
      case Letter(b) =>
      case Unicode(q) => QuadAt(q, rest);
      case Pair(h, l) =>
        PairBack(h, l, rest);
        assert G.CharText(c) + rest == G.QuadText(h) + (G.QuadText(l) + rest);
    }
  }

  /** Every element read is a written character. */
  lemma CharOf(s: Bytes) returns (c: G.Char)
    requires s != [] && s[0] != QUOTE && Element(s, true).Ok?
    ensures var r := Element(s, true);
            G.CharOk(c) && G.CharUnits(c) == r.value && G.CharText(c) == s[..r.used]
  {
    hide Hex4, DecodePoint, EncodePoint;
    if s[0] != BACKSLASH {
      WritesBack(s);
      var code := DecodePoint(s, true).value;
      FirstIs(s);
      RawUnits(code);
      c := G.Raw(code);
    } else if s[1] != LOWER_U {
      c := G.Letter(s[1]);
    } else {
      c := EscapeOf(s);
    }
  }

  lemma FirstIs(s: Bytes)
    requires DecodePoint(s, true).Ok? && s[0] >= 0x20 && s[0] != QUOTE && s[0] != BACKSLASH
    ensures var code := DecodePoint(s, true).value; code >= 0x20 && code != QUOTE && code != BACKSLASH
  {
  }

  lemma EscapeOf(s: Bytes) returns (c: G.Char)
    requires |s| >= 2 && s[0] == BACKSLASH && s[1] == LOWER_U && UnicodeEscape(s, true).Ok?
    ensures var r := UnicodeEscape(s, true);
            G.CharOk(c) && G.CharUnits(c) == r.value && G.CharText(c) == s[..r.used]
  {
    hide Hex4, UnitsOf;
    var q := QuadOf(s[2..6]);
    assert G.QuadText(q) == s[..6];
    if IsHigh(Hex4(s[2..6])) {
      var low := QuadOf(s[8..12]);
      assert G.QuadText(low) == s[6..12];
      PairUnits(G.QuadValue(q), G.QuadValue(low));
      c := G.Pair(q, low);
    } else {
      BasicUnits(G.QuadValue(q));
      c := G.Unicode(q);
    }
  }

  lemma BasicUnits(code: nat)
    requires code <= 0xFFFF
    ensures UnitsOf(code) == [code]
  {
  }

  // ---------------------------------------------------------------- strings

  lemma {:induction false} CharsBack(chars: seq<G.Char>, rest: Bytes)
    requires G.CharsOk(chars)
    ensures var s := G.CharsOn(chars, rest);
            |s| > |rest| && StringBody(s, true) == Ok(G.CharsUnits(chars), |s| - |rest|) && s[|s| - |rest|..] == rest
  {
    hide Element, G.CharText, G.CharUnits, G.CharOk, StringBody;
    if chars == [] {
      QuoteCloses(G.CharsOn(chars, rest));
    } else {
      var head, tail := G.CharText(chars[0]), G.CharsOn(chars[1..], rest);
      CharsBack(chars[1..], rest);
      CharBack(chars[0], tail);
      BodySplits(head, tail, G.CharUnits(chars[0]), G.CharsUnits(chars[1..]), |tail| - |rest|);
    }
  }

  lemma {:induction false} CharsOf(s: Bytes) returns (chars: seq<G.Char>)
    requires StringBody(s, true).Ok?
    ensures var r := StringBody(s, true);
            G.CharsOk(chars) && G.CharsUnits(chars) == r.value && s == G.CharsOn(chars, s[r.used..])
    decreases |s|
  {
    hide Element, G.CharText, G.CharUnits, G.CharOk;
    if s[0] == QUOTE {
      QuoteCloses(s);
      chars := [];
      assert s == [0x22] + s[1..];
    } else {
      var n := Element(s, true).used;
      var c := CharOf(s);
      var more := CharsOf(s[n..]);
      chars := [c] + more;
      assert chars[1..] == more;
      assert s[n..][StringBody(s[n..], true).used..] == s[StringBody(s, true).used..];
      assert s == s[..n] + s[n..];
    }
  }

  // ---------------------------------------------------------------- numbers

  lemma {:induction false} PositionalIs(ds: Bytes)
    ensures G.Positional(ds) == Decimal(ds)
  {
    if |ds| > 1 {
      PositionalIs(ds[..|ds| - 1]);
      PositionalSnoc(ds);
    } else if |ds| == 1 {
      assert ds[1..] == [] && ds[..0] == [];
    }
  }

  lemma {:induction false} PositionalSnoc(ds: Bytes)
    requires ds != []
    ensures G.Positional(ds) == G.Positional(ds[..|ds| - 1]) * 10 + G.DigitValue(ds[|ds| - 1])
  {
    if |ds| == 1 {
      assert ds[1..] == [] && ds[..0] == [];
    } else {
      var init := ds[..|ds| - 1];
      PositionalSnoc(ds[1..]);
      assert ds[1..][..|ds| - 2] == init[1..];
      assert init[0] == ds[0] && G.Power10(|ds| - 1) == 10 * G.Power10(|ds| - 2);
      Ten(G.DigitValue(ds[0]), G.Power10(|ds| - 2), G.Positional(init[1..]));
    }
  }

  lemma Ten(d: int, p: int, r: int)
    ensures d * (10 * p) + r * 10 == (d * p + r) * 10
  {
  }

  /** A run of digits, where something else follows. */
  lemma RunBack(ds: Bytes, s: Bytes, i: nat)
    requires G.AreDigits(ds) && i + |ds| <= |s| && s[i..i + |ds|] == ds
    requires i + |ds| < |s| ==> !IsDigit(s[i + |ds|])
    ensures DigitsEnd(s, i) == i + |ds| && DigitRun(s, i) == At(i + |ds|)
  {
    hide DigitsEnd;
    forall j | i <= j < i + |ds| ensures IsDigit(s[j]) { assert s[j] == ds[j - i]; }
    DigitsEndIs(s, i, i + |ds|);
  }

  /** An exponent, with or without a sign. */
  lemma SignedBack(e: G.Exponent, s: Bytes, i: nat)
    requires G.ExponentOk(e)
    requires var n := 1 + |e.sign|; var end := i + n + |e.digits|;
             && end <= |s| && s[i] == e.mark && s[i + 1..i + n] == e.sign && s[i + n..end] == e.digits
             && (end < |s| ==> !IsDigit(s[end]))
    ensures ExponentPart(s, i) == At(i + 1 + |e.sign| + |e.digits|)
  {
    hide DigitRun;
    var n := 1 + |e.sign|;
    RunBack(e.digits, s, i + n);
    assert s[i + n] == s[i + n..i + n + |e.digits|][0];
    if e.sign != [] { assert s[i + 1] == s[i + 1..i + n][0]; }
  }

  /** What follows a number: the end or a delimiter. */
  lemma ExponentBack(e: Option<G.Exponent>, s: Bytes, i: nat)
    requires e.Some? ==> G.ExponentOk(e.value)
    requires var t := G.ExponentText(e); i + |t| <= |s| && s[i..i + |t|] == t && Follows(s[i + |t|..])
    ensures ExponentPart(s, i) == At(i + |G.ExponentText(e)|)
  {
    hide ExponentPart;
    var t := G.ExponentText(e);
    var end := i + |t|;
    assert end < |s| ==> s[end] == s[end..][0];
    if e.Some? {
      ExponentParts(e.value, s, i);
      SignedBack(e.value, s, i);
    } else {
      EndsThere(s, i);
    }
  }

  lemma ExponentParts(e: G.Exponent, s: Bytes, i: nat)
    requires var t := G.ExponentText(Some(e)); i + |t| <= |s| && s[i..i + |t|] == t
    ensures var n := 1 + |e.sign|; var end := i + n + |e.digits|;
            && |G.ExponentText(Some(e))| == n + |e.digits|
            && s[i] == e.mark && s[i + 1..i + n] == e.sign && s[i + n..end] == e.digits
  {
    var t := G.ExponentText(Some(e));
    var n := 1 + |e.sign|;
    Slices(e.mark, e.sign, e.digits);
    SliceAt(s, i, t, 0, 1);
    SliceAt(s, i, t, 1, n);
    SliceAt(s, i, t, n, |t|);
    assert t[n..|t|] == t[n..];
  }

  lemma Slices(a: Byte, b: Bytes, c: Bytes)
    ensures var t := [a] + (b + c); var n := 1 + |b|;
            |t| == n + |c| && t[0] == a && t[1..n] == b && t[n..] == c
  {
  }

  lemma SliceAt(s: Bytes, i: nat, t: Bytes, a: nat, b: nat)
    requires i + |t| <= |s| && s[i..i + |t|] == t && a <= b <= |t|
    ensures s[i + a..i + b] == t[a..b]
    ensures a < b ==> s[i + a] == t[a]
  {
    var x, y := s[i + a..i + b], t[a..b];
    forall k | 0 <= k < b - a ensures x[k] == y[k] {
      assert x[k] == s[i + a + k] == s[i..i + |t|][a + k];
    }
    if a < b { assert x[0] == s[i + a] && y[0] == t[a]; }
  }

  /** No digit stands where a number's next part or its end stands. */
  predicate Breaks(s: Bytes, i: nat)
    requires i <= |s|
  {
    i < |s| ==> !IsDigit(s[i])
  }

  lemma FractionBack(f: Option<Bytes>, s: Bytes, i: nat)
    requires f.Some? ==> G.AreDigits(f.value)
    requires var t := G.FractionText(f);
             && i + |t| <= |s| && s[i..i + |t|] == t && Breaks(s, i + |t|)
             && (f.None? && i < |s| ==> s[i] != DOT)
    ensures FractionPart(s, i) == At(i + |G.FractionText(f)|)
  {
    hide DigitRun;
    var t := G.FractionText(f);
    if f.Some? {
      assert s[i] == t[0] && s[i + 1..i + |t|] == t[1..] == f.value;
      RunBack(f.value, s, i + 1);
    }
  }

  lemma WholeBack(whole: Bytes, s: Bytes, i: nat)
    requires G.AreDigits(whole) && (whole[0] == ZERO ==> |whole| == 1)
    requires i + |whole| <= |s| && s[i..i + |whole|] == whole && Breaks(s, i + |whole|)
    ensures IntegerPart(s, i) == At(i + |whole|)
  {
    hide DigitsEnd;
    assert s[i] == whole[0];
    RunBack(whole, s, i);
  }

  /** Where the parts of a numeral stand in its text. */
  lemma NumeralSplits(n: G.Numeral, rest: Bytes)
    ensures var s := G.NumeralText(n) + rest;
            var f, e := G.FractionText(n.fraction), G.ExponentText(n.exponent);
            var k := if n.minus then 1 else 0;
            var i := k + |n.whole|; var j := i + |f|; var end := j + |e|;
            && |G.NumeralText(n)| == end && s[end..] == rest
            && (n.minus ==> s[0] == MINUS)
            && s[k..i] == n.whole && s[i..j] == f && s[j..end] == e
  {
    hide G.FractionText, G.ExponentText;
  }

  /** Neither a digit nor, in a number without a fraction, a dot. */
  lemma PartsBreak(n: G.Numeral, rest: Bytes)
    requires G.NumeralOk(n) && Follows(rest)
    ensures var s := G.NumeralText(n) + rest;
            var i := (if n.minus then 1 else 0) + |n.whole|; var j := i + |G.FractionText(n.fraction)|;
            && i <= j <= |s| && Breaks(s, i) && Breaks(s, j)
            && (n.fraction.None? && i < |s| ==> s[i] != DOT)
  {
    hide G.NumeralText, G.AreDigits;
    NumeralSplits(n, rest);
    var s := G.NumeralText(n) + rest;
    var f, e := G.FractionText(n.fraction), G.ExponentText(n.exponent);
    var i := (if n.minus then 1 else 0) + |n.whole|;
    var j := i + |f|;
    var end := j + |e|;
    assert end < |s| ==> s[end] == rest[0];
    assert e != [] ==> s[j] == s[j..end][0] == n.exponent.value.mark;
    assert f != [] ==> s[i] == s[i..j][0] == DOT;
  }

  lemma NumeralExtent(n: G.Numeral, rest: Bytes)
    requires G.NumeralOk(n) && Follows(rest)
    ensures var k := if n.minus then 1 else 0;
            NumberExtent(G.NumeralText(n) + rest) == Extent(k + |n.whole|, |G.NumeralText(n)|)
  {
    hide G.NumeralText, G.FractionText, G.ExponentText, IntegerPart, FractionPart, ExponentPart, G.ExponentOk;
    NumeralSplits(n, rest);
    PartsBreak(n, rest);
    var s := G.NumeralText(n) + rest;
    var k := if n.minus then 1 else 0;
    assert SignLength(s) == k by { assert s[k] == s[k..k + |n.whole|][0]; }
    WholeBack(n.whole, s, k);
    FractionBack(n.fraction, s, k + |n.whole|);
    ExponentBack(n.exponent, s, k + |n.whole| + |G.FractionText(n.fraction)|);
  }

  lemma IntegerIs(n: G.Numeral)
    requires G.NumeralOk(n) && G.IsInteger(n)
    ensures IntegerOf(G.NumeralText(n)) == G.IntegerValue(n)
  {
    hide Decimal, G.Positional;
    var t := G.NumeralText(n);
    PositionalIs(n.whole);
    if n.minus { assert t[1..] == n.whole; } else { assert t == n.whole; }
  }

  /** Every number in range is read as its value, whatever may follow a value standing behind it. */
  lemma NumeralBack(n: G.Numeral, rest: Bytes, inRange: Bytes -> bool)
    requires G.NumeralOk(n) && Follows(rest)
    ensures var r := PlainNumber(G.NumeralText(n) + rest, inRange);
            r == if G.InRange(n, inRange) then Ok(NumeralValue(n), |G.NumeralText(n)|) else Error
  {
    hide NumberExtent, G.NumeralText, IntegerOf, G.IntegerValue;
    NumeralExtent(n, rest);
    NumeralSplits(n, rest);
    var t := G.NumeralText(n);
    assert (t + rest)[..|t|] == t;
    if G.IsInteger(n) { IntegerIs(n); }
  }

  function NumeralValue(n: G.Numeral): Value {
    if G.IsInteger(n) then Int(G.IntegerValue(n)) else Float(G.NumeralText(n))
  }

  lemma {:induction false} DigitsEndStops(s: Bytes, i: nat)
    requires i <= |s|
    ensures var e := DigitsEnd(s, i);
            (forall j :: i <= j < e ==> IsDigit(s[j])) && (e < |s| ==> !IsDigit(s[e]))
    decreases |s| - i
  {
    if i < |s| && IsDigit(s[i]) { DigitsEndStops(s, i + 1); }
  }

  lemma RunOf(s: Bytes, i: nat)
    requires i <= |s| && DigitRun(s, i).At?
    ensures G.AreDigits(s[i..DigitRun(s, i).pos])
  {
    hide DigitsEnd;
    DigitsEndStops(s, i);
  }

  lemma FractionOf(s: Bytes, i: nat) returns (f: Option<Bytes>)
    requires i <= |s| && FractionPart(s, i).At?
    ensures (f.Some? ==> G.AreDigits(f.value)) && G.FractionText(f) == s[i..FractionPart(s, i).pos]
  {
    hide DigitRun;
    if i < |s| && s[i] == DOT {
      RunOf(s, i + 1);
      f := Some(s[i + 1..FractionPart(s, i).pos]);
    } else {
      f := None;
    }
  }

  lemma ExponentOf(s: Bytes, i: nat) returns (e: Option<G.Exponent>)
    requires i <= |s| && ExponentPart(s, i).At?
    ensures (e.Some? ==> G.ExponentOk(e.value)) && G.ExponentText(e) == s[i..ExponentPart(s, i).pos]
  {
    hide DigitRun;
    if i < |s| && (s[i] == LOWER_E || s[i] == UPPER_E) {
      var signed := i + 1 < |s| && (s[i + 1] == PLUS || s[i + 1] == MINUS);
      var at := if signed then i + 2 else i + 1;
      RunOf(s, at);
      e := Some(G.Exponent(s[i], s[i + 1..at], s[at..ExponentPart(s, i).pos]));
    } else {
      e := None;
    }
  }

  lemma WholeOf(s: Bytes, i: nat)
    requires i <= |s| && IntegerPart(s, i).At?
    ensures var whole := s[i..IntegerPart(s, i).pos]; G.AreDigits(whole) && (whole[0] == ZERO ==> |whole| == 1)
  {
    hide DigitsEnd;
    DigitsEndStops(s, i);
  }

  /** Every number read is a numeral of the grammar. */
  lemma NumeralOf(s: Bytes, inRange: Bytes -> bool) returns (n: G.Numeral)
    requires PlainNumber(s, inRange).Ok?
    ensures var r := PlainNumber(s, inRange);
            && G.NumeralOk(n) && G.InRange(n, inRange) && NumeralValue(n) == r.value
            && G.NumeralText(n) == s[..r.used]
  {
    hide IntegerPart, FractionPart, ExponentPart, G.FractionText, G.ExponentText, G.AreDigits, G.ExponentOk,
      IntegerOf, G.IntegerValue;
    var k := SignLength(s);
    var i := IntegerPart(s, k).pos;
    var j := FractionPart(s, i).pos;
    var end := ExponentPart(s, j).pos;
    WholeOf(s, k);
    var f := FractionOf(s, i);
    var e := ExponentOf(s, j);
    n := G.Numeral(k == 1, s[k..i], f, e);
    assert G.SignText(n.minus) == s[..k];
    Pieces(s, k, i, j, end);
    IntegerExactly(n, s, i, j, end);
    if G.IsInteger(n) { IntegerIs(n); }
  }

  lemma Pieces(s: Bytes, k: nat, i: nat, j: nat, end: nat)
    requires k <= i <= j <= end <= |s|
    ensures s[..k] + (s[k..i] + (s[i..j] + s[j..end])) == s[..end]
  {
  }

  lemma IntegerExactly(n: G.Numeral, s: Bytes, i: nat, j: nat, end: nat)
    requires i <= j <= end <= |s| && G.FractionText(n.fraction) == s[i..j] && G.ExponentText(n.exponent) == s[j..end]
    ensures G.IsInteger(n) <==> i == end
  {
  }
}
