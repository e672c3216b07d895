/**
 HTTP/1.1 chunked bodies (section 4.1 of RFC 7230): the parser that is handed
 the bytes as they arrive, the reader that takes chunk data between its calls,
 and the writer. However the wire bytes are cut, the reader sees the body that
 was written.
 */
module Chunked {
  import opened Octets
  import JsonLex

  datatype State =
    | ChunkStart | ChunkSize | ChunkExtension | ChunkExtensionAlmostDone | ChunkData
    | AfterData | AfterDataAlmostDone | LastChunkExtension | LastChunkExtensionAlmostDone | Trailer

  datatype Parser = Parser(state: State, size: nat)

  datatype Code = Ok | Again | BodyDone | Error

  const MAX_SIZE: nat := 0xFFFF_FFFF_FFFF_FFFF
  /** A larger chunk size is refused. */
  const LIMIT: nat := MAX_SIZE - 5

  const CR: int := 0x0D
  const LF: int := 0x0A

  function Init(): Parser { Parser(ChunkStart, 0) }

  predicate IsBlank(b: int) { b == 0x3B || b == 0x20 || b == 0x09 }

  /** What the parser does with a byte: takes it, takes it and is done, stops before it, or refuses it. */
  datatype OnByte = Take(next: Parser) | TakeLast(next: Parser) | Before(code: Code) | Refuse

  function SizeByte(p: Parser, b: int): OnByte {
    var digit := JsonLex.HexValue(b);
    if digit >= 0 then
      if p.state.ChunkStart? then Take(Parser(ChunkSize, digit))
      else if p.size > (MAX_SIZE - digit) / 16 then Refuse
      else Take(Parser(ChunkSize, p.size * 16 + digit))
    else if p.state.ChunkStart? then Refuse
    else if p.size == 0 then
      if b == CR then Take(p.(state := LastChunkExtensionAlmostDone))
      else if b == LF then TakeLast(p.(state := Trailer))
      else if IsBlank(b) then Take(p.(state := LastChunkExtension))
      else Refuse
    else if b == CR then Take(p.(state := ChunkExtensionAlmostDone))
    else if b == LF then Take(p.(state := ChunkData))
    else if IsBlank(b) then Take(p.(state := ChunkExtension))
    else Refuse
  }

  /** The switch of ChunkedBodyParser::execute. */
  function Handle(p: Parser, b: int): OnByte {
    match p.state
    case ChunkStart => SizeByte(p, b)
    case ChunkSize => SizeByte(p, b)
    case ChunkExtension =>
      Take(if b == CR then p.(state := ChunkExtensionAlmostDone) else if b == LF then p.(state := ChunkData) else p)
    case ChunkExtensionAlmostDone => if b == LF then Take(p.(state := ChunkData)) else Refuse
    case ChunkData => Before(Ok)
    case AfterData =>
      if b == CR then Take(p.(state := AfterDataAlmostDone))
      else if b == LF then Take(p.(state := ChunkStart))
      else Refuse
    case AfterDataAlmostDone => if b == LF then Take(p.(state := ChunkStart)) else Refuse
    case LastChunkExtension =>
      if b == CR then Take(p.(state := LastChunkExtensionAlmostDone))
      else if b == LF then TakeLast(p.(state := Trailer))
      else Take(p)
    case LastChunkExtensionAlmostDone => if b == LF then TakeLast(p.(state := Trailer)) else Refuse
    case Trailer => Before(BodyDone)
  }

  /** A chunk whose data has all been taken is over. */
  function Entered(p: Parser): Parser {
    if p.state.ChunkData? && p.size == 0 then p.(state := AfterData) else p
  }

  datatype Result = Result(code: Code, parser: Parser, used: nat)

  function Advance(p: Parser, s: Bytes): (r: Result)
    ensures r.used <= |s|
    decreases |s|
  {
    if s == [] then Result(Again, p, 0)
    else
      match Handle(p, s[0])
      case Take(next) =>
        var r := Advance(next, s[1..]);
        r.(used := r.used + 1)
      case TakeLast(next) => Result(BodyDone, next, 1)
      case Before(code) => Result(code, p, 0)
      case Refuse => Result(Error, p, 0)
  }

  /** ChunkedBodyParser::execute. */
  function Execute(p: Parser, s: Bytes): (r: Result)
    ensures r.used <= |s|
  {
    var r := Advance(Entered(p), s);
    if r.parser.size > LIMIT then r.(code := Error) else r
  }

  // ---------------------------------------------------------------- the reader

  /** A reader in the middle of a body, at its end with the bytes that follow it, or with a broken message. */
  datatype Reader = Going(parser: Parser, body: Bytes) | Finished(body: Bytes, rest: Bytes) | Failed

  /** A parser between calls: the sizes fit the states. */
  predicate Sane(p: Parser) {
    && p.size <= LIMIT && !p.state.Trailer?
    && (p.state.ChunkExtension? || p.state.ChunkExtensionAlmostDone? || p.state.ChunkData? ==> p.size > 0)
    && (p.state.AfterData? || p.state.AfterDataAlmostDone? || p.state.ChunkStart? ==> p.size == 0)
    && (p.state.LastChunkExtension? || p.state.LastChunkExtensionAlmostDone? ==> p.size == 0)
  }

  /** One byte, as the reader and the parser together treat it. */
  function Eat(g: Reader, b: Byte): Reader {
    match g
    case Failed => Failed
    case Finished(body, rest) => Finished(body, rest + [b])
    case Going(p, body) =>
      if p.state.ChunkData? then
        if p.size == 0 then Failed else Going(Entered(p.(size := p.size - 1)), body + [b])
      else
        match Handle(p, b)
        case Take(next) => if next.size > LIMIT then Failed else Going(next, body)
        case TakeLast(_) => Finished(body, [])
        case _ => Failed
  }

  function EatAll(g: Reader, s: Bytes): Reader
    decreases |s|
  {
    if s == [] then g else EatAll(Eat(g, s[0]), s[1..])
  }

  lemma {:induction false} AdvanceFacts(p: Parser, s: Bytes)
    requires Sane(p)
    ensures var r := Advance(p, s);
            && (r.code.Again? ==> r.used == |s|)
            && (r.code.Again? && r.parser.size <= LIMIT ==> Sane(r.parser))
            && (r.code.Ok? ==> r.used < |s| && r.parser.state.ChunkData? && r.parser.size > 0)
    decreases |s|
  {
    if s != [] && Handle(p, s[0]).Take? {
      var next := Handle(p, s[0]).next;
      if Sane(next) { AdvanceFacts(next, s[1..]); } else { AdvanceBig(next, s[1..]); }
    }
  }

  /** A size past the limit is never forgotten. */
  lemma {:induction false} AdvanceBig(p: Parser, s: Bytes)
    requires p.size > LIMIT
    requires p.state.ChunkSize? || p.state.ChunkExtension? || p.state.ChunkExtensionAlmostDone? || p.state.ChunkData?
    ensures var r := Advance(p, s);
            && (r.code.Error? || r.parser.size > LIMIT) && (r.code.Again? ==> r.used == |s|)
            && (r.code.Ok? ==> r.used < |s| && r.parser.state.ChunkData? && r.parser.size > 0)
    decreases |s|
  {
    if s != [] && Handle(p, s[0]).Take? { AdvanceBig(Handle(p, s[0]).next, s[1..]); }
  }

  /** Calls of execute, and after each Ok as much chunk data as there is, until the bytes run out or the body ends. */
  function Read(p: Parser, body: Bytes, s: Bytes): Reader
    requires Sane(p) || p == Parser(ChunkData, 0)
    decreases |s|
  {
    AdvanceFacts(Entered(p), s);
    var r := Execute(p, s);
    match r.code
    case Error => Failed
    case BodyDone => Finished(body, s[r.used..])
    case Again => Going(r.parser, body)
    case Ok =>
      var rest := s[r.used..];
      var n := Min(r.parser.size, |rest|);
      Read(r.parser.(size := r.parser.size - n), body + rest[..n], rest[n..])
  }

  /** Once the body is done the parser takes nothing more and says so again. */
  lemma {:induction false} DoneStays(p: Parser, s: Bytes, t: Bytes)
    requires Sane(p) && Execute(p, s).code.BodyDone?
    ensures var q := Execute(p, s).parser;
            q == Parser(Trailer, 0) && Execute(q, t) == Result(if t == [] then Again else BodyDone, q, 0)
  {
    DoneInTrailer(Entered(p), s);
  }

  lemma {:induction false} DoneInTrailer(p: Parser, s: Bytes)
    requires Sane(p) && Advance(p, s).code.BodyDone? && Advance(p, s).parser.size <= LIMIT
    ensures Advance(p, s).parser == Parser(Trailer, 0)
    decreases |s|
  {
    var e := Handle(p, s[0]);
    if e.Take? {
      if e.next.size > LIMIT { AdvanceBig(e.next, s[1..]); } else { DoneInTrailer(e.next, s[1..]); }
    }
  }

  // ---------------------------------------------------------------- reading is byte by byte

  lemma {:induction false} EatConcat(g: Reader, s: Bytes, t: Bytes)
    ensures EatAll(g, s + t) == EatAll(EatAll(g, s), t)
    decreases |s|
  {
    if s == [] {
      assert s + t == t;
    } else {
      assert (s + t)[1..] == s[1..] + t;
      EatConcat(Eat(g, s[0]), s[1..], t);
    }
  }

  lemma {:induction false} EatStuck(g: Reader, s: Bytes)
    requires !g.Going?
    ensures EatAll(g, s) == if g.Failed? then Failed else Finished(g.body, g.rest + s)
    decreases |s|
  {
    if s != [] {
      EatStuck(Eat(g, s[0]), s[1..]);
      if g.Finished? { assert g.rest + [s[0]] + s[1..] == g.rest + s; }
    } else if g.Finished? {
      assert g.rest + [] == g.rest;
    }
  }

  /** One call of execute against the bytes it used. */
  lemma {:induction false} AdvanceEats(p: Parser, body: Bytes, s: Bytes)
    requires Sane(p)
    ensures var r := Advance(p, s); var g := EatAll(Going(p, body), s);
            if r.code.Error? || r.parser.size > LIMIT then g.Failed?
            else if r.code.Again? then g == Going(r.parser, body)
            else if r.code.BodyDone? then g == Finished(body, s[r.used..])
            else g == EatAll(Going(r.parser, body), s[r.used..])
    decreases |s|
  {
    if s != [] {
      var e := Handle(p, s[0]);
      match e {
        case Take(next) =>
          if next.size > LIMIT {
            AdvanceBig(next, s[1..]);
            EatStuck(Failed, s[1..]);
          } else {
            AdvanceEats(next, body, s[1..]);
            var r := Advance(next, s[1..]);
            assert s[r.used + 1..] == s[1..][r.used..];
          }
        case TakeLast(next) =>
          EatStuck(Finished(body, []), s[1..]);
          assert [] + s[1..] == s[1..];
        case Before(code) => assert s[0..] == s;
        case Refuse => EatStuck(Failed, s[1..]);
      }
    }
  }

  lemma DataByte(p: Parser, body: Bytes, s: Bytes)
    requires p.state.ChunkData? && p.size > 0 && s != []
    ensures EatAll(Going(p, body), s) == EatAll(Going(Entered(p.(size := p.size - 1)), body + [s[0]]), s[1..])
  {
    hide Handle;
  }

  /** Chunk data taken in one go. */
  lemma {:induction false} DataEats(p: Parser, body: Bytes, s: Bytes, n: nat)
    requires p.state.ChunkData? && p.size > 0 && n <= p.size && n <= |s|
    ensures EatAll(Going(p, body), s) == EatAll(Going(Entered(p.(size := p.size - n)), body + s[..n]), s[n..])
    decreases n
  {
    hide EatAll;
    if n == 0 {
      assert body + s[..0] == body && s[0..] == s;
    } else {
      DataByte(p, body, s);
      if n == 1 {
        assert s[..1] == [s[0]];
      } else {
        DataEats(p.(size := p.size - 1), body + [s[0]], s[1..], n - 1);
        assert body + [s[0]] + s[1..][..n - 1] == body + s[..n];
        assert s[1..][n - 1..] == s[n..];
      }
    }
  }

  /** Reading some bytes does what eating them one by one does. */
  lemma {:induction false} ReadEats(p: Parser, body: Bytes, s: Bytes)
    requires Sane(p) || p == Parser(ChunkData, 0)
    ensures Read(p, body, s) == EatAll(Going(Entered(p), body), s)
    ensures var g := Read(p, body, s); g.Going? ==> Sane(g.parser)
    decreases |s|
  {
    var q := Entered(p);
    AdvanceFacts(q, s);
    AdvanceEats(q, body, s);
    var r := Execute(p, s);
    if r.code.Ok? {
      var rest := s[r.used..];
      var n := Min(r.parser.size, |rest|);
      DataEats(r.parser, body, rest, n);
      ReadEats(r.parser.(size := r.parser.size - n), body + rest[..n], rest[n..]);
    }
  }

  /** A reader given one piece after another. */
  function ReadPieces(g: Reader, pieces: seq<Bytes>): Reader
    requires g.Going? ==> Sane(g.parser)
    decreases |pieces|
  {
    if pieces == [] then g
    else
      match g
      case Failed => Failed
      case Finished(body, rest) => ReadPieces(Finished(body, rest + pieces[0]), pieces[1..])
      case Going(p, body) =>
        ReadEats(p, body, pieces[0]);
        ReadPieces(Read(p, body, pieces[0]), pieces[1..])
  }

  /** However the bytes are cut, the outcome is that of eating them one by one. */
  lemma {:induction false} CutsDoNotMatter(g: Reader, pieces: seq<Bytes>)
    requires g.Going? ==> Sane(g.parser)
    ensures ReadPieces(g, pieces) == EatAll(g, Concat(pieces))
    decreases |pieces|
  {
    hide Read;
    if pieces != [] {
      var rest := Concat(pieces[1..]);
      EatConcat(g, pieces[0], rest);
      match g {
        case Failed =>
          EatStuck(Failed, pieces[0]);
          EatStuck(Failed, rest);
        case Finished(body, r) =>
          EatStuck(g, pieces[0]);
          CutsDoNotMatter(Finished(body, r + pieces[0]), pieces[1..]);
        case Going(p, body) =>
          ReadEats(p, body, pieces[0]);
          CutsDoNotMatter(Read(p, body, pieces[0]), pieces[1..]);
      }
    }
  }
}
