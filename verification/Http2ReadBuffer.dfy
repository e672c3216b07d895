/**
 The buffer the read loop reads into. Slices of it may have been handed to
 streams, and what a slice shows must not change under its holder.
 */
module Http2ReadBuffer {
  import opened Octets

  class ReadBuffer {
    var data: array<Byte>
    var begin: nat
    var end: nat
    /** Somebody else holds a slice of `data`. */
    var shared: bool

    ghost predicate Valid()
      reads this
    {
      begin <= end <= data.Length
    }

    ghost function Unread(): Bytes
      requires Valid()
      reads this, data
    {
      data[begin..end]
    }

    function Room(): nat
      requires Valid()
      reads this
    {
      data.Length - end
    }

    constructor (capacity: nat)
      ensures Valid() && fresh(data) && data.Length == capacity && Unread() == [] && !shared
    {
      data := new Byte[capacity](_ => 0);
      begin, end, shared := 0, 0, false;
    }

    /** What a read brings goes behind the unread bytes. */
    method Commit(piece: Bytes)
      requires Valid() && |piece| <= Room()
      modifies this`end, data
      ensures Valid() && Unread() == old(Unread()) + piece && data[..begin] == old(data[..begin])
    {
      forall i | 0 <= i < |piece| { data[end + i] := piece[i]; }
      end := end + |piece|;
      assert data[begin..old(end)] == old(data[begin..end]);
      assert data[old(end)..end] == piece;
      assert data[begin..end] == data[begin..old(end)] + data[old(end)..end];
    }

    method Consume(n: nat)
      requires Valid() && n <= |Unread()|
      modifies this`begin
      ensures Valid() && Unread() == old(Unread())[n..]
    {
      begin := begin + n;
    }

    /**
     Before the next read: the unread bytes move to the front, into a new buffer if the old one is
     shared. Nothing is lost, as much room as possible is made, and no holder of a slice sees a change.
     */
    method Prepare()
      requires Valid()
      modifies this, data
      ensures Valid() && Unread() == old(Unread()) && begin == 0 && !shared && data.Length == old(data).Length
      ensures Room() == data.Length - |Unread()|
      ensures data == old(data) || fresh(data)
      ensures old(shared) ==> old(data)[..] == old(data[..])
    {
      var unread := end - begin;
      var from := data;
      if shared {
        data := new Byte[from.Length](_ => 0);
        shared := false;
      }
      MoveDown(from, data, begin, unread);
      begin, end := 0, unread;
    }
  }

  /** Bytes move towards the front of the same array, or into another one. */
  method MoveDown(from: array<Byte>, to: array<Byte>, start: nat, n: nat)
    requires start + n <= from.Length && from.Length == to.Length
    modifies to
    ensures to[..n] == old(from[start..start + n])
    ensures to != from ==> from[..] == old(from[..])
  {
    for i := 0 to n
      invariant to[..i] == old(from[start..start + i])
      invariant to != from ==> from[..] == old(from[..])
      invariant to == from ==> forall j :: start + i <= j < from.Length ==> from[j] == old(from[j])
    {
      assert to != from ==> from[start + i] == from[..][start + i];
      to[i] := from[start + i];
      assert to[..i + 1] == to[..i] + [to[i]];
    }
  }
}
