/**
 The chunked coding as the parser takes it: the grammar of section 4.1 of RFC
 7230, with its chunk extensions, and with a line feed alone accepted as the end
 of a line. A reader finishes exactly on these texts, with the body they spell.
 */
module ChunkedGrammar {
  import opened Octets
  import JsonLex
  import G = JsonGrammar
  import P = JsonGrammarProofs
  import opened Chunked
  import W = ChunkedWire

  // ---------------------------------------------------------------- the grammar

  /** A size line: digits in either case, an extension, the end of the line. */
  datatype Line = Line(digits: seq<G.Hex>, extension: Bytes, bare: bool)

  datatype Chunk = Chunk(line: Line, data: Bytes, bare: bool)

  predicate AreHex(ds: seq<G.Hex>) {
    forall i :: 0 <= i < |ds| ==> ds[i].value < 16
  }

  function DigitsText(ds: seq<G.Hex>): (r: Bytes)
    requires AreHex(ds)
    ensures |r| == |ds|
  {
    if ds == [] then [] else [G.HexByte(ds[0])] + DigitsText(ds[1..])
  }

  function Size(ds: seq<G.Hex>): nat {
    if ds == [] then 0 else Size(ds[..|ds| - 1]) * 16 + ds[|ds| - 1].value
  }

  /** Empty, or led by a semicolon, a space or a tab, up to the end of the line. */
  predicate ExtensionOk(e: Bytes) {
    e != [] ==> (e[0] == 0x3B || e[0] == 0x20 || e[0] == 0x09) && NoLineEnd(e)
  }

  predicate NoLineEnd(e: Bytes) {
    forall i :: 0 <= i < |e| ==> e[i] != 0x0D && e[i] != 0x0A
  }

  function LineEnd(bare: bool): Bytes {
    if bare then [0x0A] else [0x0D, 0x0A]
  }

  predicate LineOk(l: Line) {
    l.digits != [] && AreHex(l.digits) && ExtensionOk(l.extension) && Size(l.digits) <= 0xFFFF_FFFF_FFFF_FFFA
  }

  function LineOn(l: Line, rest: Bytes): Bytes
    requires LineOk(l)
  {
    DigitsText(l.digits) + (l.extension + (LineEnd(l.bare) + rest))
  }

  predicate ChunksOk(chunks: seq<Chunk>) {
    forall i :: 0 <= i < |chunks| ==> LineOk(chunks[i].line) && Size(chunks[i].line.digits) == |chunks[i].data| > 0
  }

  /** The chunks, the last chunk, then `rest`. */
  function ChunksOn(chunks: seq<Chunk>, last: Line, rest: Bytes): Bytes
    requires ChunksOk(chunks) && LineOk(last)
  {
    if chunks == [] then LineOn(last, rest)
    else LineOn(chunks[0].line, chunks[0].data + (LineEnd(chunks[0].bare) + ChunksOn(chunks[1..], last, rest)))
  }

  function Data(chunks: seq<Chunk>): Bytes {
    if chunks == [] then [] else chunks[0].data + Data(chunks[1..])
  }

  /** `s` is a chunked body `body`, with `rest` behind it. */
  ghost predicate Spells(s: Bytes, body: Bytes, rest: Bytes) {
    exists chunks, last :: IsBody(chunks, last) && s == ChunksOn(chunks, last, rest) && body == Data(chunks)
  }

  predicate IsBody(chunks: seq<Chunk>, last: Line) {
    ChunksOk(chunks) && LineOk(last) && Size(last.digits) == 0
  }

  // ---------------------------------------------------------------- what is written is read

  lemma DigitIs(h: G.Hex)
    requires h.value < 16
    ensures JsonLex.HexValue(G.HexByte(h)) == h.value
  {
  }

  lemma {:induction false} DigitsSnoc(ds: seq<G.Hex>)
    requires ds != [] && AreHex(ds)
    ensures DigitsText(ds) == DigitsText(ds[..|ds| - 1]) + [G.HexByte(ds[|ds| - 1])]
  {
    if |ds| > 1 {
      DigitsSnoc(ds[1..]);
      assert ds[1..][..|ds| - 2] == ds[..|ds| - 1][1..];
    } else {
      assert ds[1..] == [] && ds[..0] == [];
    }
  }

  lemma {:induction false} DigitsAre(ds: seq<G.Hex>)
    requires AreHex(ds)
    ensures W.AllHex(DigitsText(ds)) && W.HexNumber(DigitsText(ds)) == Size(ds)
  {
    if ds != [] {
      var init, last := ds[..|ds| - 1], ds[|ds| - 1];
      DigitsAre(init);
      DigitsSnoc(ds);
      DigitIs(last);
      assert DigitsText(ds)[..|ds| - 1] == DigitsText(init);
    }
  }

  /** A reader past the size: at the data, or at the end of the body. */
  function Sized(n: nat, body: Bytes, rest: Bytes): Reader {
    if n == 0 then Finished(body, rest) else EatAll(Going(Parser(ChunkData, n), body), rest)
  }

  function InExtension(n: nat): State { if n == 0 then LastChunkExtension else ChunkExtension }

  lemma {:induction false} ExtensionRuns(n: nat, body: Bytes, e: Bytes, rest: Bytes)
    requires n <= LIMIT && NoLineEnd(e)
    ensures var g := Going(Parser(InExtension(n), n), body); EatAll(g, e + rest) == EatAll(g, rest)
    decreases |e|
  {
    if e == [] {
      assert e + rest == rest;
    } else {
      assert (e + rest)[1..] == e[1..] + rest && (e + rest)[0] == e[0];
      ExtensionRuns(n, body, e[1..], rest);
    }
  }

  /** The end of a size line, after the digits or in the extension. */
  lemma LineEnds(state: State, n: nat, body: Bytes, bare: bool, rest: Bytes)
    requires n <= LIMIT && (state.ChunkSize? || state == InExtension(n))
    ensures EatAll(Going(Parser(state, n), body), LineEnd(bare) + rest) == Sized(n, body, rest)
  {
    hide EatAll;
    var g := Going(Parser(state, n), body);
    EatConcat(g, LineEnd(bare), rest);
    if bare { W.OneByte(g, 0x0A); } else { W.TwoBytes(g); }
    if n == 0 {
      EatStuck(Finished(body, []), rest);
      assert [] + rest == rest;
    }
  }

  lemma SizeEnds(n: nat, body: Bytes, l: Line, rest: Bytes)
    requires n <= LIMIT && ExtensionOk(l.extension)
    ensures EatAll(Going(Parser(ChunkSize, n), body), l.extension + (LineEnd(l.bare) + rest)) == Sized(n, body, rest)
  {
    hide EatAll, Sized, LineEnd;
    var e, more := l.extension, LineEnd(l.bare) + rest;
    var g := Going(Parser(ChunkSize, n), body);
    if e == [] {
      assert e + more == more;
      LineEnds(ChunkSize, n, body, l.bare, rest);
    } else {
      var s := e + more;
      assert s == [e[0]] + (e[1..] + more);
      EatConcat(g, [e[0]], e[1..] + more);
      W.OneByte(g, e[0]);
      ExtensionRuns(n, body, e[1..], more);
      LineEnds(InExtension(n), n, body, l.bare, rest);
    }
  }

  /** A size line is read as its size, whatever its extension and whichever its end. */
  lemma LineRead(l: Line, body: Bytes, rest: Bytes)
    requires LineOk(l)
    ensures EatAll(Going(Init(), body), LineOn(l, rest)) == Sized(Size(l.digits), body, rest)
  {
    hide EatAll, Sized, LineEnd, Size, DigitsText, ExtensionOk;
    var more := l.extension + (LineEnd(l.bare) + rest);
    EatConcat(Going(Init(), body), DigitsText(l.digits), more);
    DigitsAre(l.digits);
    W.SizeIsExact(DigitsText(l.digits), body);
    SizeEnds(Size(l.digits), body, l, rest);
  }

  lemma ChunkRead(c: Chunk, body: Bytes, rest: Bytes)
    requires LineOk(c.line) && Size(c.line.digits) == |c.data| > 0
    ensures EatAll(Going(Init(), body), LineOn(c.line, c.data + (LineEnd(c.bare) + rest)))
         == EatAll(Going(Init(), body + c.data), rest)
  {
    hide EatAll, LineOn, LineOk, Size;
    var n, more := |c.data|, LineEnd(c.bare) + rest;
    var p := Parser(ChunkData, n);
    LineRead(c.line, body, c.data + more);
    DataEats(p, body, c.data + more, n);
    assert (c.data + more)[..n] == c.data && (c.data + more)[n..] == more;
    AfterEnds(body + c.data, c.bare, rest);
  }

  lemma AfterEnds(body: Bytes, bare: bool, rest: Bytes)
    ensures EatAll(Going(Parser(AfterData, 0), body), LineEnd(bare) + rest) == EatAll(Going(Init(), body), rest)
  {
    hide EatAll;
    var g := Going(Parser(AfterData, 0), body);
    EatConcat(g, LineEnd(bare), rest);
    if bare { W.OneByte(g, 0x0A); } else { W.TwoBytes(g); }
  }

  lemma {:induction false} ChunksRead(chunks: seq<Chunk>, last: Line, body: Bytes, rest: Bytes)
    requires IsBody(chunks, last)
    ensures EatAll(Going(Init(), body), ChunksOn(chunks, last, rest)) == Finished(body + Data(chunks), rest)
    decreases |chunks|
  {
    hide EatAll, LineOn, LineOk, Size, LineEnd;
    if chunks == [] {
      LineRead(last, body, rest);
      assert body + [] == body;
    } else {
      ChunkRead(chunks[0], body, ChunksOn(chunks[1..], last, rest));
      ChunksRead(chunks[1..], last, body + chunks[0].data, rest);
      assert body + chunks[0].data + Data(chunks[1..]) == body + Data(chunks);
    }
  }

  // ---------------------------------------------------------------- what is read is written

  /** The size after more digits. */
  function Grown(n: nat, ds: seq<G.Hex>): nat {
    if ds == [] then n else Grown(n, ds[..|ds| - 1]) * 16 + ds[|ds| - 1].value
  }

  lemma {:induction false} GrownFirst(n: nat, h: G.Hex, ds: seq<G.Hex>)
    ensures Grown(n, [h] + ds) == Grown(n * 16 + h.value, ds)
    decreases |ds|
  {
    var all := [h] + ds;
    if ds == [] {
      assert all[..0] == [] && all == [h];
    } else {
      GrownFirst(n, h, ds[..|ds| - 1]);
      assert all[..|all| - 1] == [h] + ds[..|ds| - 1] && all[|all| - 1] == ds[|ds| - 1];
    }
  }

  lemma {:induction false} GrownIsSize(ds: seq<G.Hex>)
    ensures Grown(0, ds) == Size(ds)
  {
    if ds != [] { GrownIsSize(ds[..|ds| - 1]); }
  }

  lemma EatFirst(g: Reader, s: Bytes)
    requires s != []
    ensures EatAll(g, s) == EatAll(Eat(g, s[0]), s[1..])
  {
    hide Eat;
  }

  /** A reader that fails or stays on the way does not finish. */
  lemma Unfinished(g: Reader, s: Bytes)
    ensures g.Failed? || (g.Going? && s == []) ==> !EatAll(g, s).Finished?
  {
    if g.Failed? { EatStuck(g, s); }
  }

  /** The end of a line seen from its first byte. */
  lemma EndOf(state: State, n: nat, body: Bytes, s: Bytes) returns (bare: bool, rest: Bytes)
    requires n <= LIMIT && (state.ChunkSize? || state == InExtension(n))
    requires s != [] && (s[0] == 0x0D || s[0] == 0x0A) && EatAll(Going(Parser(state, n), body), s).Finished?
    ensures s == LineEnd(bare) + rest && EatAll(Going(Parser(state, n), body), s) == Sized(n, body, rest)
  {
    hide EatAll, Sized;
    var g := Going(Parser(state, n), body);
    bare := s[0] == 0x0A;
    if !bare {
      EatFirst(g, s);
      Unfinished(Eat(g, s[0]), s[1..]);
      EatFirst(Eat(g, s[0]), s[1..]);
      if s[1] != 0x0A { Unfinished(Failed, s[1..][1..]); }
    }
    rest := if bare then s[1..] else s[2..];
    assert s == LineEnd(bare) + rest;
    LineEnds(state, n, body, bare, rest);
  }

  lemma {:induction false} ExtensionOf(n: nat, body: Bytes, s: Bytes) returns (e: Bytes, bare: bool, rest: Bytes)
    requires n <= LIMIT && EatAll(Going(Parser(InExtension(n), n), body), s).Finished?
    ensures NoLineEnd(e) && s == e + (LineEnd(bare) + rest)
    ensures EatAll(Going(Parser(InExtension(n), n), body), s) == Sized(n, body, rest)
    decreases |s|
  {
    hide EatAll, Sized, LineEnd;
    var g := Going(Parser(InExtension(n), n), body);
    Unfinished(g, s);
    if s[0] == 0x0D || s[0] == 0x0A {
      e := [];
      bare, rest := EndOf(InExtension(n), n, body, s);
    } else {
      EatFirst(g, s);
      e, bare, rest := ExtensionOf(n, body, s[1..]);
      e := [s[0]] + e;
      assert s == [s[0]] + s[1..];
      assert s == e + (LineEnd(bare) + rest);
    }
  }

  /** The rest of a size line after its first digit. */
  lemma {:induction false} TailOf(n: nat, body: Bytes, s: Bytes)
      returns (ds: seq<G.Hex>, e: Bytes, bare: bool, rest: Bytes)
    requires n <= LIMIT && EatAll(Going(Parser(ChunkSize, n), body), s).Finished?
    ensures AreHex(ds) && ExtensionOk(e) && Grown(n, ds) <= LIMIT
    ensures s == DigitsText(ds) + (e + (LineEnd(bare) + rest))
    ensures EatAll(Going(Parser(ChunkSize, n), body), s) == Sized(Grown(n, ds), body, rest)
    decreases |s|
  {
    hide EatAll, Sized, LineEnd;
    var g := Going(Parser(ChunkSize, n), body);
    Unfinished(g, s);
    EatFirst(g, s);
    if JsonLex.HexValue(s[0]) >= 0 {
      var h := P.HexOf(s[0]);
      if n * 16 + h.value > LIMIT { Unfinished(Failed, s[1..]); }
      ds, e, bare, rest := TailOf(n * 16 + h.value, body, s[1..]);
      GrownFirst(n, h, ds);
      ds := [h] + ds;
      assert s == [s[0]] + s[1..];
    } else if s[0] == 0x0D || s[0] == 0x0A {
      ds, e := [], [];
      bare, rest := EndOf(ChunkSize, n, body, s);
    } else {
      if !IsBlank(s[0]) { Unfinished(Failed, s[1..]); }
      ds := [];
      e, bare, rest := ExtensionOf(n, body, s[1..]);
      e := [s[0]] + e;
      assert s == [s[0]] + s[1..];
    }
  }

  lemma LineOf(body: Bytes, s: Bytes) returns (l: Line, rest: Bytes)
    requires EatAll(Going(Init(), body), s).Finished?
    ensures LineOk(l) && s == LineOn(l, rest) && |rest| < |s|
    ensures EatAll(Going(Init(), body), s) == Sized(Size(l.digits), body, rest)
  {
    hide EatAll, Sized, LineEnd;
    var g := Going(Init(), body);
    Unfinished(g, s);
    EatFirst(g, s);
    if JsonLex.HexValue(s[0]) < 0 { Unfinished(Failed, s[1..]); }
    var h := P.HexOf(s[0]);
    var ds, e, bare, more := TailOf(h.value, body, s[1..]);
    GrownFirst(0, h, ds);
    GrownIsSize([h] + ds);
    l, rest := Line([h] + ds, e, bare), more;
    assert ([h] + ds)[1..] == ds;
    assert s == [s[0]] + s[1..];
  }

  /** The data of a chunk and the end of its line. */
  lemma DataOf(n: nat, body: Bytes, s: Bytes) returns (bare: bool, rest: Bytes)
    requires 0 < n && EatAll(Going(Parser(ChunkData, n), body), s).Finished?
    ensures n <= |s| && s[n..] == LineEnd(bare) + rest && |rest| < |s|
    ensures EatAll(Going(Parser(ChunkData, n), body), s) == EatAll(Going(Init(), body + s[..n]), rest)
  {
    hide EatAll;
    var p := Parser(ChunkData, n);
    var k := Min(n, |s|);
    DataEats(p, body, s, k);
    if k < n {
      assert s[k..] == [];
      Unfinished(Going(Entered(p.(size := n - k)), body + s[..k]), []);
    }
    var g, t := Going(Parser(AfterData, 0), body + s[..n]), s[n..];
    Unfinished(g, t);
    EatFirst(g, t);
    if t[0] != 0x0D && t[0] != 0x0A { Unfinished(Failed, t[1..]); }
    bare := t[0] == 0x0A;
    if !bare {
      Unfinished(Eat(g, t[0]), t[1..]);
      EatFirst(Eat(g, t[0]), t[1..]);
      if t[1] != 0x0A { Unfinished(Failed, t[1..][1..]); }
    }
    rest := if bare then t[1..] else t[2..];
    assert t == LineEnd(bare) + rest;
    AfterEnds(body + s[..n], bare, rest);
  }

  lemma ChunksJoin(body: Bytes, c: Chunk, others: seq<Chunk>, last: Line) returns (chunks: seq<Chunk>)
    requires IsBody(others, last) && LineOk(c.line) && Size(c.line.digits) == |c.data| > 0
    ensures IsBody(chunks, last) && body + Data(chunks) == body + c.data + Data(others)
    ensures forall rest :: ChunksOn(chunks, last, rest)
                        == LineOn(c.line, c.data + (LineEnd(c.bare) + ChunksOn(others, last, rest)))
  {
    hide LineEnd, LineOn, LineOk, Size;
    chunks := [c] + others;
    assert chunks[1..] == others;
  }

  lemma {:induction false} ChunksOf(body: Bytes, s: Bytes) returns (chunks: seq<Chunk>, last: Line)
    requires EatAll(Going(Init(), body), s).Finished?
    ensures IsBody(chunks, last)
    ensures var g := EatAll(Going(Init(), body), s);
            g.body == body + Data(chunks) && s == ChunksOn(chunks, last, g.rest)
    decreases |s|
  {
    hide EatAll, LineEnd, LineOn, LineOk, Size;
    var l, more := LineOf(body, s);
    var n := Size(l.digits);
    if n == 0 {
      chunks, last := [], l;
      assert body + [] == body;
    } else {
      var bare, rest := DataOf(n, body, more);
      var c := Chunk(l, more[..n], bare);
      assert more == more[..n] + more[n..];
      var others: seq<Chunk>;
      others, last := ChunksOf(body + c.data, rest);
      chunks := ChunksJoin(body, c, others, last);
    }
  }

  /** However the bytes are cut, a reader finishes exactly on a text of the grammar, with its body and what follows. */
  lemma FinishesExactly(cuts: seq<Bytes>, body: Bytes, rest: Bytes)
    ensures ReadPieces(Going(Init(), []), cuts) == Finished(body, rest) <==> Spells(Concat(cuts), body, rest)
  {
    hide ReadPieces, EatAll, Concat, ChunksOn, Data, ChunksOk, LineOk;
    var s := Concat(cuts);
    CutsDoNotMatter(Going(Init(), []), cuts);
    if EatAll(Going(Init(), []), s) == Finished(body, rest) {
      var chunks, last := ChunksOf([], s);
      assert [] + Data(chunks) == Data(chunks);
    }
    if Spells(s, body, rest) {
      var chunks, last :| IsBody(chunks, last) && s == ChunksOn(chunks, last, rest) && body == Data(chunks);
      ChunksRead(chunks, last, [], rest);
      assert [] + Data(chunks) == Data(chunks);
    }
  }
}
