/**
 The script heap's strings: valid UTF-8 and well-formed UTF-16 are two spellings
 of the same code points, converting one to the other and back changes nothing,
 and the first pass over a string predicts exactly what the second one writes.
 */
module JsonUtf {
  import opened Octets
  import opened JsonLex
  import opened JsonStream

  /** A code point that is not a surrogate. */
  predicate IsScalar(code: int) {
    0 <= code <= 0x10FFFF && !IsHigh(code) && !IsLow(code)
  }

  // ---------------------------------------------------------------- one code point

  /** append_utf8. */
  function EncodePoint(code: int): (r: Bytes)
    requires 0 <= code <= 0x10FFFF
    ensures 1 <= |r| <= 4
  {
    if code < 0x80 then [code]
    else if code < 0x800 then [0xC0 + code / 64, 0x80 + code % 64]
    else if code < 0x10000 then [0xE0 + code / 4096, 0x80 + code / 64 % 64, 0x80 + code % 64]
    else [0xF0 + code / 262144, 0x80 + code / 4096 % 64, 0x80 + code / 64 % 64, 0x80 + code % 64]
  }

  lemma ReadsBack(code: int, rest: Bytes)
    requires IsScalar(code)
    ensures DecodePoint(EncodePoint(code) + rest, true) == Ok(code, |EncodePoint(code)|)
  {
    var s := EncodePoint(code) + rest;
    if code >= 0x80 {
      assert Needed(s[0]) == |EncodePoint(code)| - 1;
      Recombine(code);
    }
  }

  lemma Recombine(code: int)
    requires 0 <= code
    ensures code / 64 * 64 + code % 64 == code
    ensures code / 4096 * 64 + code / 64 % 64 == code / 64
    ensures code / 262144 * 64 + code / 4096 % 64 == code / 4096
  {
  }

  lemma EncodesTwo(a: int, b: int)
    requires 0 <= a < 32 && 0 <= b < 64 && a * 64 + b >= 0x80
    ensures EncodePoint(a * 64 + b) == [0xC0 + a, 0x80 + b]
  {
    Split(a, b);
  }

  lemma EncodesThree(a: int, b: int, c: int)
    requires 0 <= a < 16 && 0 <= b < 64 && 0 <= c < 64
    requires (a * 64 + b) * 64 + c >= 0x800
    ensures EncodePoint((a * 64 + b) * 64 + c) == [0xE0 + a, 0x80 + b, 0x80 + c]
  {
    var code := (a * 64 + b) * 64 + c;
    Split(a, b);
    Split(a * 64 + b, c);
    assert code / 4096 == code / 64 / 64;
  }

  lemma EncodesFour(a: int, b: int, c: int, d: int)
    requires 0 <= a < 8 && 0 <= b < 64 && 0 <= c < 64 && 0 <= d < 64
    requires 0x10000 <= ((a * 64 + b) * 64 + c) * 64 + d <= 0x10FFFF
    ensures EncodePoint(((a * 64 + b) * 64 + c) * 64 + d) == [0xF0 + a, 0x80 + b, 0x80 + c, 0x80 + d]
  {
    var code := ((a * 64 + b) * 64 + c) * 64 + d;
    Split(a, b);
    Split(a * 64 + b, c);
    Split((a * 64 + b) * 64 + c, d);
    assert code / 4096 == code / 64 / 64 && code / 262144 == code / 64 / 64 / 64;
  }

  lemma WritesBack(s: Bytes)
    requires DecodePoint(s, true).Ok?
    ensures var r := DecodePoint(s, true);
            IsScalar(r.value) && EncodePoint(r.value) == s[..r.used]
  {
    hide EncodePoint;
    var r := DecodePoint(s, true);
    var n := Needed(s[0]);
    if n == 0 {
      EncodesOne(s[0]);
    } else if n == 1 {
      EncodesTwo(s[0] - 0xC0, s[1] - 0x80);
    } else if n == 2 {
      EncodesThree(s[0] - 0xE0, s[1] - 0x80, s[2] - 0x80);
    } else {
      EncodesFour(s[0] - 0xF0, s[1] - 0x80, s[2] - 0x80, s[3] - 0x80);
    }
  }

  lemma EncodesOne(a: int)
    requires 0 <= a < 0x80
    ensures EncodePoint(a) == [a]
  {
  }

  lemma Split(high: int, low: int)
    requires 0 <= low < 64
    ensures (high * 64 + low) / 64 == high && (high * 64 + low) % 64 == low
  {
  }

  /** The code point at the front of a list of units: itself, or a surrogate pair. */
  function NextPoint(units: Units): (r: Scan<nat>)
    requires units != []
    ensures r.Ok? ==> 1 <= r.used <= |units|
  {
    if IsHigh(units[0]) then
      if |units| < 2 || !IsLow(units[1]) then Error
      else Ok(0x10000 + (units[0] - 0xD800) * 0x400 + (units[1] - 0xDC00), 2)
    else if IsLow(units[0]) then Error
    else Ok(units[0], 1)
  }

  predicate AreUnits(units: Units) {
    forall i :: 0 <= i < |units| ==> units[i] <= 0xFFFF
  }

  lemma UnitsReadBack(code: int, rest: Units)
    requires IsScalar(code)
    ensures NextPoint(UnitsOf(code) + rest) == Ok(code, |UnitsOf(code)|)
    ensures AreUnits(UnitsOf(code))
  {
  }

  lemma UnitsWriteBack(units: Units)
    requires units != [] && units[0] <= 0xFFFF && NextPoint(units).Ok?
    ensures var r := NextPoint(units);
            IsScalar(r.value) && UnitsOf(r.value) == units[..r.used]
  {
  }

  // ---------------------------------------------------------------- whole strings

  /** decode_utf8. */
  function FromUtf8(s: Bytes): Option<Units>
    decreases |s|
  {
    if s == [] then Some([])
    else
      var r := DecodePoint(s, true);
      if !r.Ok? then None
      else
        var rest := FromUtf8(s[r.used..]);
        if rest.None? then None else Some(UnitsOf(r.value) + rest.value)
  }

  /** gc_string_to_utf8. */
  function ToUtf8(units: Units): Option<Bytes>
    requires AreUnits(units)
    decreases |units|
  {
    if units == [] then Some([])
    else
      var r := NextPoint(units);
      if !r.Ok? then None
      else
        var rest := ToUtf8(units[r.used..]);
        if rest.None? then None else Some(EncodePoint(r.value) + rest.value)
  }

  /** Valid UTF-8, made into a heap string and back, is unchanged. */
  lemma {:induction false} ThereAndBack(s: Bytes)
    requires FromUtf8(s).Some?
    ensures AreUnits(FromUtf8(s).value) && ToUtf8(FromUtf8(s).value) == Some(s)
    decreases |s|
  {
    hide DecodePoint, EncodePoint, UnitsOf, NextPoint;
    if s != [] {
      var r := DecodePoint(s, true);
      var rest := FromUtf8(s[r.used..]).value;
      WritesBack(s);
      UnitsReadBack(r.value, rest);
      ThereAndBack(s[r.used..]);
      UnitsNotEmpty(r.value);
      var units := UnitsOf(r.value) + rest;
      assert units[|UnitsOf(r.value)|..] == rest;
      assert s == s[..r.used] + s[r.used..];
    }
  }

  lemma UnitsNotEmpty(code: nat)
    ensures |UnitsOf(code)| >= 1
  {
  }

  /** Well-formed UTF-16, written as UTF-8 and read back, is unchanged. */
  lemma {:induction false} BackAndThere(units: Units)
    requires AreUnits(units) && ToUtf8(units).Some?
    ensures FromUtf8(ToUtf8(units).value) == Some(units)
    decreases |units|
  {
    hide DecodePoint, EncodePoint, UnitsOf, NextPoint;
    if units != [] {
      var r := NextPoint(units);
      UnitsWriteBack(units);
      var rest := ToUtf8(units[r.used..]).value;
      ReadsBack(r.value, rest);
      BackAndThere(units[r.used..]);
      assert (EncodePoint(r.value) + rest)[|EncodePoint(r.value)|..] == rest;
      assert units == units[..r.used] + units[r.used..];
    }
  }

  /** Each string has one spelling only, so equal bytes mean equal units and the other way round. */
  lemma OneSpelling(s: Bytes, t: Bytes)
    requires FromUtf8(s).Some? && FromUtf8(s) == FromUtf8(t)
    ensures s == t
  {
    ThereAndBack(s);
    ThereAndBack(t);
  }

  // ---------------------------------------------------------------- the loops

  /** utf8_next_codepoint at a position. */
  method NextCodepoint(data: Bytes, pos: nat) returns (r: Scan<nat>)
    requires pos < |data|
    ensures r == DecodePoint(data[pos..], true)
  {
    var lead: int := data[pos];
    if lead < 0x80 { return Ok(lead, 1); }
    var needed := Needed(lead);
    if needed < 0 || pos + needed >= |data| { return Error; }
    var code: int := lead - Marker(needed);
    var idx := 1;
    ghost var s := data[pos..];
    while idx <= needed
      invariant 1 <= idx <= needed + 1
      invariant forall j :: 1 <= j < idx ==> IsContinuation(s[j])
      invariant idx == 1 ==> code == lead - Marker(needed)
      invariant idx == 2 ==> code == (lead - Marker(needed)) * 64 + Payload(s[1])
      invariant idx == 3 ==> code == ((lead - Marker(needed)) * 64 + Payload(s[1])) * 64 + Payload(s[2])
      invariant idx == 4 ==>
                  code == (((lead - Marker(needed)) * 64 + Payload(s[1])) * 64 + Payload(s[2])) * 64 + Payload(s[3])
    {
      assert data[pos + idx] == s[idx];
      if !IsContinuation(data[pos + idx]) { return Error; }
      code := code * 64 + Payload(data[pos + idx]);
      idx := idx + 1;
    }
    var min := if needed == 1 then 0x80 else if needed == 2 then 0x800 else 0x10000;
    if code < min || code > 0x10FFFF || IsHigh(code) || IsLow(code) { return Error; }
    return Ok(code, needed + 1);
  }

  /** What utf8_scan finds: whether one byte per unit will do, and how many units there are. */
  datatype ScanResult = ScanResult(allByte: bool, len: nat)

  function AllByte(units: Units): bool {
    forall i :: 0 <= i < |units| ==> units[i] <= 0xFF
  }

  /** The units read so far followed by those of the rest. */
  function Continued(units: Units, rest: Option<Units>): Option<Units> {
    if rest.Some? then Some(units + rest.value) else None
  }

  lemma FromUtf8Step(units: Units, s: Bytes)
    requires s != [] && DecodePoint(s, true).Ok?
    ensures var r := DecodePoint(s, true);
            Continued(units, FromUtf8(s)) == Continued(units + UnitsOf(r.value), FromUtf8(s[r.used..]))
  {
    hide DecodePoint, UnitsOf;
    var r := DecodePoint(s, true);
    var rest := FromUtf8(s[r.used..]);
    if rest.Some? { assert units + (UnitsOf(r.value) + rest.value) == units + UnitsOf(r.value) + rest.value; }
  }

  /** utf8_scan: succeeds exactly on valid UTF-8 and tells the units' width and number. */
  method Scan8(data: Bytes) returns (r: Option<ScanResult>)
    ensures r.Some? <==> FromUtf8(data).Some?
    ensures r.Some? ==> r.value == ScanResult(AllByte(FromUtf8(data).value), |FromUtf8(data).value|)
  {
    hide DecodePoint, FromUtf8, UnitsOf;
    var pos, out := 0, ScanResult(true, 0);
    ghost var units: Units := [];
    assert data[0..] == data;
    assert FromUtf8(data).Some? ==> [] + FromUtf8(data).value == FromUtf8(data).value;
    while pos < |data|
      invariant 0 <= pos <= |data|
      invariant FromUtf8(data) == Continued(units, FromUtf8(data[pos..]))
      invariant out == ScanResult(AllByte(units), |units|)
    {
      var p := NextCodepoint(data, pos);
      if !p.Ok? {
        NoneWithout(data[pos..]);
        return None;
      }
      FromUtf8Step(units, data[pos..]);
      WritesBack(data[pos..]);
      ByteUnits(units, p.value);
      units := units + UnitsOf(p.value);
      assert data[pos..][p.used..] == data[pos + p.used..];
      pos := pos + p.used;
      out := ScanResult(out.allByte && p.value <= 0xFF, out.len + if p.value <= 0xFFFF then 1 else 2);
    }
    SomeEmpty(data[pos..]);
    assert units + [] == units;
    return Some(out);
  }

  lemma NoneWithout(s: Bytes)
    requires s != [] && !DecodePoint(s, true).Ok?
    ensures FromUtf8(s).None?
  {
  }

  lemma SomeEmpty(s: Bytes)
    requires s == []
    ensures FromUtf8(s) == Some([])
  {
  }

  /** A code point fits one byte exactly when its units do. */
  lemma ByteUnits(units: Units, code: nat)
    requires code <= 0x10FFFF
    ensures AllByte(units + UnitsOf(code)) <==> AllByte(units) && code <= 0xFF
    ensures |UnitsOf(code)| == if code <= 0xFFFF then 1 else 2
  {
    var all := units + UnitsOf(code);
    assert all[|units|] == UnitsOf(code)[0];
    assert AllByte(all) ==> forall i :: 0 <= i < |units| ==> all[i] == units[i];
  }

  /**
   utf8_write_utf16: fills a buffer of exactly the right length and fails for any other, except that for empty
   input the buffer's length is not looked at.
   */
  method WriteUtf16(data: Bytes, dst: array<nat>) returns (ok: bool)
    modifies dst
    ensures ok <==> data == [] || (FromUtf8(data).Some? && |FromUtf8(data).value| == dst.Length)
    ensures ok && data != [] ==> dst[..] == FromUtf8(data).value
  {
    hide DecodePoint, FromUtf8, UnitsOf;
    if data == [] { return true; }
    var pos, out := 0, 0;
    ghost var units: Units := [];
    assert data[0..] == data;
    assert FromUtf8(data).Some? ==> [] + FromUtf8(data).value == FromUtf8(data).value;
    while pos < |data|
      invariant 0 <= pos <= |data| && 0 <= out <= dst.Length && dst[..out] == units
      invariant FromUtf8(data) == Continued(units, FromUtf8(data[pos..]))
    {
      var p := NextCodepoint(data, pos);
      if !p.Ok? {
        NoneWithout(data[pos..]);
        return false;
      }
      FromUtf8Step(units, data[pos..]);
      WritesBack(data[pos..]);
      ByteUnits(units, p.value);
      assert data[pos..][p.used..] == data[pos + p.used..];
      pos := pos + p.used;
      units := units + UnitsOf(p.value);
      var room := Put(dst, out, p.value);
      if !room { return false; }
      out := out + |UnitsOf(p.value)|;
    }
    SomeEmpty(data[pos..]);
    assert units + [] == units;
    assert out == dst.Length ==> dst[..] == dst[..out];
    return out == dst.Length;
  }

  /** Writes the units of one code point if there is room. */
  method Put(dst: array<nat>, out: nat, code: nat) returns (room: bool)
    requires out <= dst.Length && code <= 0x10FFFF
    modifies dst
    ensures room <==> out + |UnitsOf(code)| <= dst.Length
    ensures room ==> dst[..out + |UnitsOf(code)|] == old(dst[..out]) + UnitsOf(code)
  {
    if code <= 0xFFFF {
      if out >= dst.Length { return false; }
      dst[out] := code;
      return true;
    }
    if out + 1 >= dst.Length { return false; }
    dst[out] := 0xD800 + (code - 0x10000) / 0x400;
    dst[out + 1] := 0xDC00 + (code - 0x10000) % 0x400;
    return true;
  }

  /** utf8_write_bytes: the same for the narrow form, which also fails on a unit that needs more than a byte. */
  method WriteBytes(data: Bytes, dst: array<nat>) returns (ok: bool)
    modifies dst
    ensures ok <==> data == [] ||
                    (FromUtf8(data).Some? && AllByte(FromUtf8(data).value) && |FromUtf8(data).value| == dst.Length)
    ensures ok && data != [] ==> dst[..] == FromUtf8(data).value
  {
    hide DecodePoint, FromUtf8;
    if data == [] { return true; }
    var pos, out := 0, 0;
    ghost var units: Units := [];
    assert data[0..] == data;
    assert FromUtf8(data).Some? ==> [] + FromUtf8(data).value == FromUtf8(data).value;
    while pos < |data|
      invariant 0 <= pos <= |data| && 0 <= out <= dst.Length && dst[..out] == units && AllByte(units)
      invariant FromUtf8(data) == Continued(units, FromUtf8(data[pos..]))
    {
      var p := NextCodepoint(data, pos);
      if !p.Ok? {
        NoneWithout(data[pos..]);
        return false;
      }
      FromUtf8Step(units, data[pos..]);
      WritesBack(data[pos..]);
      ByteUnits(units, p.value);
      if p.value > 0xFF {
        WideStays(units + UnitsOf(p.value), FromUtf8(data[pos..][p.used..]));
        return false;
      }
      assert data[pos..][p.used..] == data[pos + p.used..];
      pos := pos + p.used;
      units := units + UnitsOf(p.value);
      if out >= dst.Length { return false; }
      dst[out] := p.value;
      out := out + 1;
    }
    SomeEmpty(data[pos..]);
    assert units + [] == units;
    assert out == dst.Length ==> dst[..] == dst[..out];
    return out == dst.Length;
  }

  lemma WideStays(units: Units, rest: Option<Units>)
    requires !AllByte(units)
    ensures Continued(units, rest).Some? ==> !AllByte(Continued(units, rest).value)
  {
    var i :| 0 <= i < |units| && units[i] > 0xFF;
    assert rest.Some? ==> (units + rest.value)[i] == units[i];
  }

  // ---------------------------------------------------------------- writing a string out

  /** The bytes written so far followed by those of the rest. */
  function Extended(done: Bytes, rest: Option<Bytes>): Option<Bytes> {
    if rest.Some? then Some(done + rest.value) else None
  }

  lemma ToUtf8Step(done: Bytes, units: Units)
    requires units != [] && AreUnits(units) && NextPoint(units).Ok?
    ensures var r := NextPoint(units);
            IsScalar(r.value) &&
            Extended(done, ToUtf8(units)) == Extended(done + EncodePoint(r.value), ToUtf8(units[r.used..]))
  {
    hide NextPoint, EncodePoint;
    UnitsWriteBack(units);
    var r := NextPoint(units);
    var rest := ToUtf8(units[r.used..]);
    if rest.Some? { assert done + (EncodePoint(r.value) + rest.value) == done + EncodePoint(r.value) + rest.value; }
  }

  lemma ToUtf8Stops(units: Units)
    requires AreUnits(units)
    ensures units == [] ==> ToUtf8(units) == Some([])
    ensures units != [] && !NextPoint(units).Ok? ==> ToUtf8(units).None?
  {
  }

  function EncodedLength(code: int): nat {
    if code < 0x80 then 1 else if code < 0x800 then 2 else if code < 0x10000 then 3 else 4
  }

  lemma EncodedLengthIs(code: int)
    requires 0 <= code <= 0x10FFFF
    ensures |EncodePoint(code)| == EncodedLength(code)
  {
  }

  /** The first pass: how long the text will be, or that the units are not well formed. */
  method Measure(units: Units) returns (len: Option<nat>)
    requires AreUnits(units)
    ensures len.Some? <==> ToUtf8(units).Some?
    ensures len.Some? ==> len.value == |ToUtf8(units).value|
  {
    hide NextPoint, EncodePoint, ToUtf8;
    var i: nat, outLen: nat := 0, 0;
    ghost var done: Bytes := [];
    assert units[0..] == units;
    assert ToUtf8(units).Some? ==> [] + ToUtf8(units).value == ToUtf8(units).value;
    while i < |units|
      invariant i <= |units| && outLen == |done|
      invariant ToUtf8(units) == Extended(done, ToUtf8(units[i..]))
    {
      ToUtf8Stops(units[i..]);
      var p := NextPoint(units[i..]);
      if !p.Ok? { return None; }
      ToUtf8Step(done, units[i..]);
      EncodedLengthIs(p.value);
      outLen := outLen + EncodedLength(p.value);
      done := done + EncodePoint(p.value);
      assert units[i..][p.used..] == units[i + p.used..];
      i := i + p.used;
    }
    ToUtf8Stops(units[i..]);
    assert done + [] == done;
    return Some(outLen);
  }

  /** Copies bytes into place. */
  method Copy(dst: array<Byte>, at: nat, bytes: Bytes)
    requires at + |bytes| <= dst.Length
    modifies dst
    ensures dst[..at + |bytes|] == old(dst[..at]) + bytes
  {
    var k := 0;
    while k < |bytes|
      invariant 0 <= k <= |bytes| && dst[..at] == old(dst[..at])
      invariant dst[at..at + k] == bytes[..k]
    {
      dst[at + k] := bytes[k];
      k := k + 1;
    }
    assert dst[..at + |bytes|] == dst[..at] + dst[at..at + |bytes|];
  }

  /** gc_string_to_utf8 for the wide form: the second pass fills exactly what the first one measured. */
  method StringToUtf8(units: Units) returns (out: Option<array<Byte>>)
    requires AreUnits(units)
    ensures out.Some? <==> ToUtf8(units).Some?
    ensures out.Some? ==> fresh(out.value) && out.value[..] == ToUtf8(units).value
  {
    hide NextPoint, EncodePoint, ToUtf8;
    var len := Measure(units);
    if len.None? { return None; }
    var dst := new Byte[len.value](_ => 0);
    var i: nat, d: nat := 0, 0;
    assert units[0..] == units && [] + ToUtf8(units).value == ToUtf8(units).value && dst[..0] == [];
    while i < |units|
      invariant i <= |units| && d <= dst.Length
      invariant ToUtf8(units) == Extended(dst[..d], ToUtf8(units[i..]))
    {
      ToUtf8Stops(units[i..]);
      var p := NextPoint(units[i..]);
      ToUtf8Step(dst[..d], units[i..]);
      var bytes := EncodePoint(p.value);
      Copy(dst, d, bytes);
      d := d + |bytes|;
      assert units[i..][p.used..] == units[i + p.used..];
      i := i + p.used;
    }
    ToUtf8Stops(units[i..]);
    assert dst[..d] + [] == dst[..d] && dst[..] == dst[..d];
    return Some(dst);
  }

  /** A narrow string is always well formed, and grows by one byte for each unit from 0x80 up. */
  lemma {:induction false} NarrowIsText(units: Units)
    requires AllByte(units)
    ensures AreUnits(units) && ToUtf8(units).Some?
    ensures |ToUtf8(units).value| == |units| + Wide8(units)
    ensures Wide8(units) == 0 ==> ToUtf8(units).value == units
    ensures units != [] ==> ToUtf8(units).value == EncodePoint(units[0]) + ToUtf8(units[1..]).value
  {
    if units != [] {
      NarrowIsText(units[1..]);
      assert units == [units[0]] + units[1..];
    }
  }

  /** How many units take two bytes. */
  function Wide8(units: Units): nat {
    if units == [] then 0 else (if units[0] >= 0x80 then 1 else 0) + Wide8(units[1..])
  }

  lemma NarrowStep(done: Bytes, units: Units)
    requires units != [] && AllByte(units)
    ensures AreUnits(units) && AllByte(units[1..]) && AreUnits(units[1..])
    ensures Extended(done, ToUtf8(units)) == Extended(done + EncodePoint(units[0]), ToUtf8(units[1..]))
  {
    hide EncodePoint, ToUtf8;
    assert NextPoint(units) == Ok(units[0], 1);
    ToUtf8Step(done, units);
  }

  /** gc_string_to_utf8 for the narrow form. */
  method NarrowToUtf8(units: Bytes) returns (out: array<Byte>)
    ensures AreUnits(units) && fresh(out) && Some(out[..]) == ToUtf8(units)
  {
    hide EncodePoint, ToUtf8;
    var extra: nat, i: nat := 0, 0;
    while i < |units|
      invariant i <= |units| && Wide8(units) == extra + Wide8(units[i..])
    {
      assert units[i..][1..] == units[i + 1..];
      if units[i] >= 0x80 { extra := extra + 1; }
      i := i + 1;
    }
    NarrowIsText(units);
    out := new Byte[|units| + extra](_ => 0);
    if extra == 0 {
      Copy(out, 0, units);
      assert out[..] == out[..0 + |units|] == units;
    } else {
      FillNarrow(units, out);
    }
  }

  /** The second pass. */
  method FillNarrow(units: Bytes, out: array<Byte>)
    requires AreUnits(units) && ToUtf8(units).Some? && |ToUtf8(units).value| == out.Length
    modifies out
    ensures Some(out[..]) == ToUtf8(units)
  {
    hide EncodePoint, ToUtf8;
    var d: nat, i: nat := 0, 0;
    assert units[0..] == units && [] + ToUtf8(units).value == ToUtf8(units).value && out[..0] == [];
    while i < |units|
      invariant i <= |units| && d <= out.Length && AllByte(units[i..]) && AreUnits(units[i..])
      invariant ToUtf8(units) == Extended(out[..d], ToUtf8(units[i..]))
    {
      NarrowStep(out[..d], units[i..]);
      assert units[i..][1..] == units[i + 1..];
      var bytes := NarrowBytes(units[i]);
      Copy(out, d, bytes);
      d := d + |bytes|;
      i := i + 1;
    }
    ToUtf8Stops(units[i..]);
    assert out[..d] + [] == out[..d] && out[..] == out[..d];
  }

  function NarrowBytes(b: Byte): (r: Bytes)
    ensures r == EncodePoint(b)
  {
    if b < 0x80 then [b] else [0xC0 + b / 64, 0x80 + b % 64]
  }
}
