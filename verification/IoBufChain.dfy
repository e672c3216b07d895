/**
 Buffer chains and outbound payloads: a chain is the concatenation of its
 buffers, its cached counts are the sums over them, and splitting a prefix off a
 payload of any kind takes exactly the bytes asked for and leaves the others.
 */
module IoBufChain {
  import opened Octets

  /** A buffer view: its readable bytes and how many may still be written behind them. */
  datatype Buf = Buf(data: Bytes, writable: nat)

  function Content(nodes: seq<Buf>): Bytes {
    if nodes == [] then [] else nodes[0].data + Content(nodes[1..])
  }

  function Writable(nodes: seq<Buf>): nat {
    if nodes == [] then 0 else nodes[0].writable + Writable(nodes[1..])
  }

  lemma {:induction false} Joined(a: seq<Buf>, b: seq<Buf>)
    ensures Content(a + b) == Content(a) + Content(b) && Writable(a + b) == Writable(a) + Writable(b)
  {
    if a == [] {
      assert a + b == b;
    } else {
      assert (a + b)[1..] == a[1..] + b;
      Joined(a[1..], b);
    }
  }

  lemma One(b: Buf)
    ensures Content([b]) == b.data && Writable([b]) == b.writable
  {
    assert [b][1..] == [];
  }

  class Chain {
    var nodes: seq<Buf>
    var size: nat
    var readableBytes: nat
    var writableBytes: nat

    /** The cached counts are the sums over the nodes. */
    ghost predicate Valid()
      reads this
    {
      size == |nodes| && readableBytes == |Content(nodes)| && writableBytes == Writable(nodes)
    }

    constructor ()
      ensures Valid() && nodes == [] && Content(nodes) == []
    {
      nodes, size, readableBytes, writableBytes := [], 0, 0, 0;
    }

    method Append(b: Buf)
      requires Valid()
      modifies this
      ensures Valid() && Content(nodes) == old(Content(nodes)) + b.data && nodes == old(nodes) + [b]
    {
      Joined(nodes, [b]);
      One(b);
      nodes := nodes + [b];
      size := size + 1;
      readableBytes := readableBytes + |b.data|;
      writableBytes := writableBytes + b.writable;
    }

    method Prepend(b: Buf)
      requires Valid()
      modifies this
      ensures Valid() && Content(nodes) == b.data + old(Content(nodes)) && nodes == [b] + old(nodes)
    {
      Joined([b], nodes);
      One(b);
      nodes := [b] + nodes;
      size := size + 1;
      readableBytes := readableBytes + |b.data|;
      writableBytes := writableBytes + b.writable;
    }

    /** Slices of the first `bytes` readable bytes, sharing the buffers; the chain is untouched. */
    method RetainPrefix(bytes: nat) returns (out: Chain)
      requires Valid() && bytes <= readableBytes
      ensures fresh(out) && out.Valid() && Content(out.nodes) == Content(nodes)[..bytes]
    {
      hide Content, Writable, Taken;
      out := new Chain();
      TakenIs(nodes, bytes);
      var remaining: nat, i: nat := bytes, 0;
      assert nodes[0..] == nodes && [] + Taken(nodes, bytes) == Taken(nodes, bytes);
      while i < |nodes| && remaining > 0
        invariant i <= |nodes| && fresh(out) && out.Valid()
        invariant Taken(nodes, bytes) == out.nodes + Taken(nodes[i..], remaining)
      {
        TakenStep(out.nodes, nodes, i, remaining);
        var data := nodes[i].data;
        var take := Min(|data|, remaining);
        if |data| > 0 {
          out.Append(Buf(data[..take], 0));
        }
        remaining := remaining - take;
        i := i + 1;
      }
      TakenNothing(nodes, i, remaining);
      assert out.nodes + [] == out.nodes;
    }

    /** Moves the read cursors past `bytes`; emptied buffers stay in the chain. */
    method Consume(bytes: nat)
      requires Valid() && bytes <= readableBytes
      modifies this
      ensures Valid() && Content(nodes) == old(Content(nodes))[bytes..] && size == old(size)
    {
      hide Content, Writable, Consumed;
      ConsumedIs(nodes, bytes);
      readableBytes := readableBytes - bytes;
      var left: nat, i: nat := bytes, 0;
      ghost var goal := Consumed(nodes, bytes);
      assert nodes[0..] == nodes && nodes[..0] + goal == goal;
      while i < |nodes| && left > 0
        invariant i <= |nodes| && |nodes| == |old(nodes)| && goal == nodes[..i] + Consumed(nodes[i..], left)
        invariant size == old(size) && readableBytes == old(readableBytes) - bytes
        invariant writableBytes == old(writableBytes)
      {
        ConsumedStep(nodes, i, left);
        var data := nodes[i].data;
        var taken := Min(|data|, left);
        nodes := nodes[i := Buf(data[taken..], nodes[i].writable)];
        left := left - taken;
        i := i + 1;
      }
      ConsumedNothing(nodes, i, left);
    }

    /** The same, and emptied buffers are dropped. */
    method ConsumeAndCompact(bytes: nat)
      requires Valid() && bytes <= readableBytes
      modifies this
      ensures Valid() && Content(nodes) == old(Content(nodes))[bytes..]
    {
      hide Content, Writable;
      readableBytes := readableBytes - bytes;
      var left: nat := bytes;
      while |nodes| > 0 && left > 0
        invariant left <= |Content(nodes)| && Content(nodes)[left..] == old(Content(nodes))[bytes..]
        invariant size == |nodes| && writableBytes == Writable(nodes) && readableBytes == old(readableBytes) - bytes
        decreases |nodes|
      {
        Parts(nodes);
        var data, rest := nodes[0].data, nodes[1..];
        DropSplits(data, Content(rest), left);
        if left < |data| {
          var b := Buf(data[left..], nodes[0].writable);
          Parts([b] + rest);
          assert ([b] + rest)[1..] == rest;
          nodes := [b] + rest;
          assert Content(nodes) == old(Content(nodes))[bytes..];
          return;
        }
        left := left - |data|;
        writableBytes := writableBytes - nodes[0].writable;
        nodes := rest;
        size := size - 1;
      }
      EmptyContent(nodes);
    }

    /** Buffers with nothing left to read are dropped from the front. */
    method DropEmptyFront()
      requires Valid()
      modifies this
      ensures Valid() && Content(nodes) == old(Content(nodes)) && (nodes != [] ==> nodes[0].data != [])
    {
      hide Content, Writable;
      while |nodes| > 0 && |nodes[0].data| == 0
        invariant Valid() && Content(nodes) == old(Content(nodes))
        decreases |nodes|
      {
        Parts(nodes);
        assert nodes[0].data + Content(nodes[1..]) == Content(nodes[1..]);
        writableBytes := writableBytes - nodes[0].writable;
        nodes := nodes[1..];
        size := size - 1;
      }
    }
  }

  /** Slices of the first `n` bytes. */
  function Taken(nodes: seq<Buf>, n: nat): seq<Buf> {
    if nodes == [] || n == 0 then []
    else
      var take := Min(|nodes[0].data|, n);
      (if nodes[0].data == [] then [] else [Buf(nodes[0].data[..take], 0)]) + Taken(nodes[1..], n - take)
  }

  function Consumed(nodes: seq<Buf>, n: nat): seq<Buf> {
    if nodes == [] || n == 0 then nodes
    else
      var take := Min(|nodes[0].data|, n);
      [Buf(nodes[0].data[take..], nodes[0].writable)] + Consumed(nodes[1..], n - take)
  }

  lemma TakenStep(had: seq<Buf>, nodes: seq<Buf>, i: nat, n: nat)
    requires i < |nodes| && n > 0
    ensures var data := nodes[i].data; var take := Min(|data|, n);
            had + Taken(nodes[i..], n) ==
            (if data == [] then had else had + [Buf(data[..take], 0)]) + Taken(nodes[i + 1..], n - take)
  {
    assert nodes[i..][1..] == nodes[i + 1..] && nodes[i..][0] == nodes[i];
    var data := nodes[i].data;
    var take := Min(|data|, n);
    var b, rest := Buf(data[..take], 0), Taken(nodes[i + 1..], n - take);
    if data == [] { assert [] + rest == rest; } else { assert had + ([b] + rest) == had + [b] + rest; }
  }

  lemma TakenNothing(nodes: seq<Buf>, i: nat, n: nat)
    requires i == |nodes| || (i < |nodes| && n == 0)
    ensures Taken(nodes[i..], n) == []
  {
  }

  lemma ConsumedStep(nodes: seq<Buf>, i: nat, n: nat)
    requires i < |nodes| && n > 0
    ensures var take := Min(|nodes[i].data|, n); var t := nodes[i := Buf(nodes[i].data[take..], nodes[i].writable)];
            nodes[..i] + Consumed(nodes[i..], n) == t[..i + 1] + Consumed(t[i + 1..], n - take)
  {
    var take := Min(|nodes[i].data|, n);
    var b := Buf(nodes[i].data[take..], nodes[i].writable);
    var t := nodes[i := b];
    assert nodes[i..][1..] == nodes[i + 1..] && nodes[i..][0] == nodes[i] && t[i + 1..] == nodes[i + 1..];
    var rest := Consumed(nodes[i + 1..], n - take);
    assert t[..i + 1] == nodes[..i] + [b];
    assert nodes[..i] + ([b] + rest) == nodes[..i] + [b] + rest;
  }

  lemma ConsumedNothing(nodes: seq<Buf>, i: nat, n: nat)
    requires i == |nodes| || (i < |nodes| && n == 0)
    ensures nodes[..i] + Consumed(nodes[i..], n) == nodes
  {
    assert nodes[..i] + nodes[i..] == nodes;
  }

  lemma Parts(nodes: seq<Buf>)
    requires nodes != []
    ensures Content(nodes) == nodes[0].data + Content(nodes[1..])
    ensures Writable(nodes) == nodes[0].writable + Writable(nodes[1..])
  {
  }

  lemma EmptyContent(nodes: seq<Buf>)
    ensures nodes == [] ==> Content(nodes) == [] && Writable(nodes) == 0
    ensures Content(nodes)[0..] == Content(nodes)
  {
  }

  lemma {:induction false} TakenIs(nodes: seq<Buf>, n: nat)
    requires n <= |Content(nodes)|
    ensures Content(Taken(nodes, n)) == Content(nodes)[..n] && Writable(Taken(nodes, n)) == 0
  {
    if nodes == [] || n == 0 {
      assert Content(nodes)[..0] == [];
    } else {
      var data, rest := nodes[0].data, nodes[1..];
      var take := Min(|data|, n);
      TakenIs(rest, n - take);
      Joined(if data == [] then [] else [Buf(data[..take], 0)], Taken(rest, n - take));
      One(Buf(data[..take], 0));
      PrefixSplits(data, Content(rest), n);
    }
  }

  lemma {:induction false} ConsumedIs(nodes: seq<Buf>, n: nat)
    requires n <= |Content(nodes)|
    ensures var c := Consumed(nodes, n);
            Content(c) == Content(nodes)[n..] && Writable(c) == Writable(nodes) && |c| == |nodes|
  {
    hide Min;
    if nodes != [] && n > 0 {
      var data, rest := nodes[0].data, nodes[1..];
      var take := Min(|data|, n);
      ConsumedIs(rest, n - take);
      var b := Buf(data[take..], nodes[0].writable);
      Joined([b], Consumed(rest, n - take));
      One(b);
      DropSplits(data, Content(rest), n);
    }
  }

  lemma PrefixSplits(data: Bytes, rest: Bytes, n: nat)
    requires n <= |data + rest|
    ensures (data + rest)[..n] == data[..Min(|data|, n)] + rest[..n - Min(|data|, n)]
    ensures data == [] ==> (data + rest)[..n] == rest[..n]
  {
    if n <= |data| {
      assert (data + rest)[..n] == data[..n] && data[..n] + rest[..0] == data[..n];
    } else {
      assert (data + rest)[..n] == data + rest[..n - |data|] && data[..|data|] == data;
    }
  }

  lemma DropSplits(data: Bytes, rest: Bytes, n: nat)
    requires n <= |data + rest|
    ensures (data + rest)[n..] == data[Min(|data|, n)..] + rest[n - Min(|data|, n)..]
  {
    if n <= |data| {
      assert (data + rest)[n..] == data[n..] + rest && rest[0..] == rest;
    } else {
      assert (data + rest)[n..] == rest[n - |data|..];
      assert data[|data|..] == [] && [] + rest[n - |data|..] == rest[n - |data|..];
    }
  }

  // ---------------------------------------------------------------- payloads

  /** What a stream still has to send: bytes that outlive it, one buffer, or a chain. */
  class Payload {
    var kind: Kind
    var span: Bytes
    var offset: nat
    var buf: Buf
    const chain: Chain

    ghost predicate Valid()
      reads this, chain
    {
      chain.Valid() && offset <= |span|
    }

    /** The bytes still to be sent. */
    ghost function Remaining(): Bytes
      requires offset <= |span|
      reads this, chain
    {
      match kind
      case Nothing => []
      case StableSpan => span[offset..]
      case OneBuf => buf.data
      case ManyBufs => Content(chain.nodes)
    }

    constructor ()
      ensures Valid() && Remaining() == [] && fresh(chain)
    {
      kind, span, offset, buf := Nothing, [], 0, Buf([], 0);
      chain := new Chain();
    }

    /** split_prefix_to: exactly the first `bytes` bytes are split off, if there are that many. */
    method SplitPrefix(bytes: nat) returns (prefix: Prefix)
      requires Valid()
      modifies this, chain
      ensures Valid() && (prefix.Split? <==> bytes <= |old(Remaining())|)
      ensures prefix.Split? ==> prefix.data + Remaining() == old(Remaining()) && |prefix.data| == bytes
      ensures !prefix.Split? ==> Remaining() == old(Remaining())
    {
      hide Content, Writable;
      match kind {
        case Nothing =>
          return if bytes == 0 then Split([]) else TooLong;
        case StableSpan =>
          if bytes > |span| - offset { return TooLong; }
          prefix := Split(span[offset..offset + bytes]);
          assert span[offset..] == span[offset..offset + bytes] + span[offset + bytes..];
          offset := offset + bytes;
        case OneBuf =>
          if bytes > |buf.data| { return TooLong; }
          prefix := Split(buf.data[..bytes]);
          buf := buf.(data := buf.data[bytes..]);
        case ManyBufs =>
          if bytes > chain.readableBytes { return TooLong; }
          ghost var all := Content(chain.nodes);
          var slices := chain.RetainPrefix(bytes);
          chain.ConsumeAndCompact(bytes);
          assert all == all[..bytes] + all[bytes..];
          prefix := Split(Content(slices.nodes));
      }
    }
  }

  datatype Kind = Nothing | StableSpan | OneBuf | ManyBufs

  /** The bytes split off, or a refusal. */
  datatype Prefix = Split(data: Bytes) | TooLong
}
