/**
 Writing a chunked body and reading it back, the parser object, and the reader
 that drives it.
 */
module ChunkedWire {
  import opened Octets
  import JsonLex
  import opened Chunked

  // ---------------------------------------------------------------- sizes

  function HexChar(d: int): Byte
    requires 0 <= d < 16
  {
    if d < 10 then 0x30 + d else 0x61 + d - 10
  }

  /** A number in lower-case hexadecimal. */
  function HexText(n: nat): (r: Bytes)
    ensures r != []
  {
    if n < 16 then [HexChar(n)] else HexText(n / 16) + [HexChar(n % 16)]
  }

  predicate AllHex(s: Bytes) {
    forall i :: 0 <= i < |s| ==> JsonLex.HexValue(s[i]) >= 0
  }

  /** The exact value of a string of hexadecimal digits. */
  function HexNumber(s: Bytes): nat
    requires AllHex(s)
  {
    if s == [] then 0
    else
      assert JsonLex.HexValue(s[|s| - 1]) >= 0;
      HexNumber(s[..|s| - 1]) * 16 + JsonLex.HexValue(s[|s| - 1])
  }

  lemma {:induction false} HexTextIs(n: nat)
    ensures AllHex(HexText(n)) && HexNumber(HexText(n)) == n
  {
    if n < 16 {
      assert [HexChar(n)][..0] == [];
    } else {
      HexTextIs(n / 16);
      var s := HexText(n);
      assert s[..|s| - 1] == HexText(n / 16);
    }
  }

  /** The size read from a size line is the exact value of its digits, or the line is refused; it never wraps around. */
  lemma {:induction false} SizeIsExact(s: Bytes, body: Bytes)
    requires s != [] && AllHex(s)
    ensures EatAll(Going(Init(), body), s)
         == if HexNumber(s) <= LIMIT then Going(Parser(ChunkSize, HexNumber(s)), body) else Failed
    decreases |s|
  {
    var t, d := s[..|s| - 1], s[|s| - 1];
    assert s == t + [d];
    EatConcat(Going(Init(), body), t, [d]);
    OneByte(EatAll(Going(Init(), body), t), d);
    assert JsonLex.HexValue(d) >= 0;
    if t != [] { SizeIsExact(t, body); }
  }

  lemma OneByte(g: Reader, b: Byte)
    ensures EatAll(g, [b]) == Eat(g, b)
  {
    assert [b][1..] == [];
  }

  // ---------------------------------------------------------------- the writer

  const CRLF: Bytes := [0x0D, 0x0A]

  /** What write_body puts on the wire for one piece; nothing for an empty one. */
  function ChunkText(piece: Bytes): Bytes {
    if piece == [] then [] else HexText(|piece|) + (CRLF + (piece + CRLF))
  }

  function ChunksText(pieces: seq<Bytes>): Bytes {
    if pieces == [] then [] else ChunkText(pieces[0]) + ChunksText(pieces[1..])
  }

  const LAST_CHUNK: Bytes := [0x30, 0x0D, 0x0A]

  /** The whole body, the last chunk, and the trailer block with its closing empty line. */
  function Wire(pieces: seq<Bytes>, trailer: Bytes): Bytes {
    ChunksText(pieces) + (LAST_CHUNK + trailer)
  }

  predicate AllFit(pieces: seq<Bytes>) {
    forall i :: 0 <= i < |pieces| ==> |pieces[i]| <= LIMIT
  }

  lemma TwoBytes(g: Reader)
    ensures EatAll(g, CRLF) == Eat(Eat(g, 0x0D), 0x0A)
  {
    assert CRLF[1..] == [0x0A] && [0x0A as Byte][1..] == [];
  }

  /** A chunk is read back whole, or refused if it is too large. */
  lemma ChunkReadsBack(piece: Bytes, body: Bytes)
    requires piece != []
    ensures EatAll(Going(Init(), body), ChunkText(piece))
         == if |piece| <= LIMIT then Going(Init(), body + piece) else Failed
  {
    hide Eat, EatAll, HexText, HexNumber;
    var n := |piece|;
    var start := Going(Init(), body);
    HexTextIs(n);
    SizeIsExact(HexText(n), body);
    EatConcat(start, HexText(n), CRLF + (piece + CRLF));
    if n > LIMIT {
      EatStuck(Failed, CRLF + (piece + CRLF));
    } else {
      var sized := Going(Parser(ChunkSize, n), body);
      EatConcat(sized, CRLF, piece + CRLF);
      SizeLineEnds(n, body);
      var data := Parser(ChunkData, n);
      EatConcat(Going(data, body), piece, CRLF);
      DataEats(data, body, piece, n);
      assert piece[..n] == piece && piece[n..] == [];
      EatNothing(Going(Parser(AfterData, 0), body + piece));
      DataEnds(body + piece);
    }
  }

  lemma EatNothing(g: Reader)
    ensures EatAll(g, []) == g
  {
  }

  lemma SizeLineEnds(n: nat, body: Bytes)
    requires 0 < n <= LIMIT
    ensures EatAll(Going(Parser(ChunkSize, n), body), CRLF) == Going(Parser(ChunkData, n), body)
  {
    TwoBytes(Going(Parser(ChunkSize, n), body));
  }

  lemma DataEnds(body: Bytes)
    ensures EatAll(Going(Parser(AfterData, 0), body), CRLF) == Going(Init(), body)
  {
    TwoBytes(Going(Parser(AfterData, 0), body));
  }

  lemma LastChunkEnds(body: Bytes, trailer: Bytes)
    ensures EatAll(Going(Init(), body), LAST_CHUNK + trailer) == Finished(body, trailer)
  {
    hide EatAll;
    var g := Going(Init(), body);
    EatConcat(g, LAST_CHUNK, trailer);
    assert LAST_CHUNK == [0x30] + CRLF;
    EatConcat(g, [0x30], CRLF);
    OneByte(g, 0x30);
    TwoBytes(Eat(g, 0x30));
    EatStuck(Finished(body, []), trailer);
    assert [] + trailer == trailer;
  }

  lemma {:induction false} WireReadsBack(pieces: seq<Bytes>, trailer: Bytes, body: Bytes)
    ensures EatAll(Going(Init(), body), Wire(pieces, trailer))
         == if AllFit(pieces) then Finished(body + Concat(pieces), trailer) else Failed
    decreases |pieces|
  {
    hide Eat, EatAll, ChunkText;
    var start := Going(Init(), body);
    if pieces == [] {
      LastChunkEnds(body, trailer);
      assert Wire(pieces, trailer) == LAST_CHUNK + trailer && body + [] == body;
    } else {
      var first, more := pieces[0], pieces[1..];
      assert Wire(pieces, trailer) == ChunkText(first) + Wire(more, trailer);
      EatConcat(start, ChunkText(first), Wire(more, trailer));
      assert AllFit(pieces) <==> |first| <= LIMIT && AllFit(more) by { assert pieces == [first] + more; }
      if first == [] {
        EmptyChunk();
        EatNothing(start);
        WireReadsBack(more, trailer, body);
        assert body + Concat(pieces) == body + Concat(more);
      } else {
        ChunkReadsBack(first, body);
        if |first| <= LIMIT {
          WireReadsBack(more, trailer, body + first);
          assert body + first + Concat(more) == body + Concat(pieces);
        } else {
          EatStuck(Failed, Wire(more, trailer));
        }
      }
    }
  }

  lemma EmptyChunk()
    ensures ChunkText([]) == []
  {
  }

  /**
   Whatever pieces are written and however the wire bytes are cut, the reader gets the concatenated body and then
   BodyDone, with the trailer block left over. Only a piece within five bytes of 2^64 is refused.
   */
  lemma RoundTrip(pieces: seq<Bytes>, trailer: Bytes, cuts: seq<Bytes>)
    requires Concat(cuts) == Wire(pieces, trailer)
    ensures ReadPieces(Going(Init(), []), cuts)
         == if AllFit(pieces) then Finished(Concat(pieces), trailer) else Failed
  {
    hide ReadPieces, EatAll, Wire, Concat;
    CutsDoNotMatter(Going(Init(), []), cuts);
    WireReadsBack(pieces, trailer, []);
    assert [] + Concat(pieces) == Concat(pieces);
  }

  /** write_body and finish_response in chunked mode, over a transport that takes every byte. */
  class ChunkedWriter {
    var wire: Bytes
    var finished: bool
    /** The pieces written so far. */
    ghost var pieces: seq<Bytes>

    ghost predicate Valid()
      reads this
    {
      !finished ==> wire == ChunksText(pieces)
    }

    constructor ()
      ensures Valid() && !finished && pieces == []
    {
      wire, finished, pieces := [], false, [];
    }

    method WriteBody(piece: Bytes) returns (ok: bool)
      requires Valid()
      modifies this
      ensures Valid() && ok == !old(finished) && finished == old(finished)
      ensures if ok then pieces == old(pieces) + [piece] else wire == old(wire) && pieces == old(pieces)
    {
      hide HexText, ChunkText, ChunksText;
      if finished { return false; }
      ChunkParts(wire, piece);
      if |piece| > 0 {
        wire := wire + HexText(|piece|);
        wire := wire + CRLF;
        wire := wire + piece;
        wire := wire + CRLF;
      }
      ChunksAppend(pieces, piece);
      pieces := pieces + [piece];
      return true;
    }

    method FinishResponse(trailer: Bytes) returns (ok: bool)
      requires Valid()
      modifies this`wire, this`finished
      ensures Valid() && finished && ok == !old(finished)
      ensures wire == if ok then Wire(pieces, trailer) else old(wire)
    {
      hide ChunksText;
      if finished { return false; }
      Assoc(wire, LAST_CHUNK, trailer);
      wire := wire + LAST_CHUNK;
      wire := wire + trailer;
      finished := true;
      return true;
    }
  }

  lemma FiveParts(w: Bytes, h: Bytes, c: Bytes, p: Bytes, d: Bytes)
    ensures w + (h + (c + (p + d))) == w + h + c + p + d
  {
    Assoc(w + h + c, p, d);
    Assoc(w + h, c, p + d);
    Assoc(w, h, c + (p + d));
  }

  lemma ChunkParts(w: Bytes, piece: Bytes)
    ensures w + ChunkText(piece) == if piece == [] then w else w + HexText(|piece|) + CRLF + piece + CRLF
  {
    hide HexText;
    if piece == [] {
      assert w + [] == w;
    } else {
      FiveParts(w, HexText(|piece|), CRLF, piece, CRLF);
    }
  }

  lemma {:induction false} ChunksAppend(pieces: seq<Bytes>, piece: Bytes)
    ensures ChunksText(pieces + [piece]) == ChunksText(pieces) + ChunkText(piece)
  {
    hide ChunkText;
    if pieces == [] {
      assert pieces + [piece] == [piece] && [piece][1..] == [];
    } else {
      assert (pieces + [piece])[1..] == pieces[1..] + [piece];
      ChunksAppend(pieces[1..], piece);
    }
  }

  // ---------------------------------------------------------------- the parser object

  class ChunkedBodyParser {
    var state: State
    var size: nat

    function Now(): Parser
      reads this
    {
      Parser(state, size)
    }

    constructor ()
      ensures Now() == Init()
    {
      state, size := ChunkStart, 0;
    }

    /** Chunk data has been taken. */
    method Consume(n: nat)
      modifies this`size
      ensures size == if n >= old(size) then 0 else old(size) - n
    {
      if n >= size {
        size := 0;
        return;
      }
      size := size - n;
    }

    method Execute(buffer: Bytes) returns (code: Code, used: nat)
      modifies this
      ensures code == Chunked.Execute(old(Now()), buffer).code
      ensures !code.Error? ==> Result(code, Now(), used) == Chunked.Execute(old(Now()), buffer)
    {
      hide Handle;
      var now := Entered(Now());
      ghost var whole := Advance(now, buffer);
      used := 0;
      code := Again;
      assert buffer[0..] == buffer;
      while used < |buffer|
        invariant used <= |buffer| && code == Again
        invariant whole == Advance(now, buffer[used..]).(used := used + Advance(now, buffer[used..]).used)
      {
        var step := Handle(now, buffer[used]);
        assert buffer[used..][1..] == buffer[used + 1..];
        match step {
          case Take(next) =>
            now := next;
            used := used + 1;
          case TakeLast(next) =>
            now := next;
            used := used + 1;
            code := BodyDone;
            break;
          case Before(c) =>
            code := c;
            break;
          case Refuse =>
            return Error, used;
        }
      }
      state, size := now.state, now.size;
      if size > LIMIT { code := Error; }
    }
  }

  /** The reader: calls the parser, takes the data it announces, and stops where the parser does. */
  method ReadSome(parser: ChunkedBodyParser, body: Bytes, s: Bytes) returns (g: Reader)
    requires Sane(parser.Now()) || parser.Now() == Parser(ChunkData, 0)
    modifies parser
    ensures g == Read(old(parser.Now()), body, s)
    ensures g.Going? ==> parser.Now() == g.parser && Sane(g.parser)
  {
    hide Read, Chunked.Execute, Sane, EatAll;
    ghost var goal := Read(parser.Now(), body, s);
    ReadEats(parser.Now(), body, s);
    var taken, rest := body, s;
    while true
      invariant Sane(parser.Now()) || parser.Now() == Parser(ChunkData, 0)
      invariant goal == Read(parser.Now(), taken, rest)
      decreases |rest|
    {
      ReadUnfold(parser.Now(), taken, rest);
      var code, used := parser.Execute(rest);
      match code {
        case Error => return Failed;
        case Again => return Going(parser.Now(), taken);
        case BodyDone => return Finished(taken, rest[used..]);
        case Ok =>
          rest := rest[used..];
          var n := Min(parser.size, |rest|);
          taken := taken + rest[..n];
          parser.Consume(n);
          rest := rest[n..];
      }
    }
  }

  /** One round of the reader. */
  lemma ReadUnfold(p: Parser, body: Bytes, s: Bytes)
    requires Sane(p) || p == Parser(ChunkData, 0)
    ensures var r := Chunked.Execute(p, s); var g := Read(p, body, s);
            && (r.code.Error? ==> g == Failed) && (r.code.BodyDone? ==> g == Finished(body, s[r.used..]))
            && (r.code.Again? ==> g == Going(r.parser, body))
            && (r.code.Ok? ==> r.used < |s| && r.parser.size > 0 && r.parser.state.ChunkData?)
            && (r.code.Ok? ==> var rest := s[r.used..]; var n := Min(r.parser.size, |rest|);
                               var q := r.parser.(size := r.parser.size - n);
                               (Sane(q) || q == Parser(ChunkData, 0)) && g == Read(q, body + rest[..n], rest[n..]))
  {
    hide Advance, Handle;
    AdvanceFacts(Entered(p), s);
  }
}
