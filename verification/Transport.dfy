/** Getting frames off a connection: the TCP loop that cuts a byte stream back
    into frames however the network chunks it, the pooled buffers it reads into,
    and the datagram path that relies on those buffers being zero. */
module Transport {
  import opened Wire
  import opened Reassembler

  // ---------------------------------------------------------------------------
  // Buffers

  ghost predicate AllZero(b: Bytes) {
    forall i :: 0 <= i < |b| ==> b[i] == 0
  }

  /** `tcpBodyPool` and `udpBodyPool`: the free buffers of one geometry. */
  class BufferPool {
    const size: nat
    var free: set<array<byte>>

    ghost predicate Valid()
      reads this, free
    {
      forall b :: b in free ==> b.Length == size && AllZero(b[..])
    }

    constructor (size: nat)
      ensures Valid() && free == {} && this.size == size
    {
      this.size, free := size, {};
    }

    /** Hands out any free buffer, or a new one. */
    method Get() returns (b: array<byte>)
      requires Valid()
      modifies this
      ensures Valid() && b.Length == size && AllZero(b[..])
      ensures b !in free && free <= old(free) <= free + {b}
      ensures fresh(b) || b in old(free)
    {
      var miss: bool := *;
      if free == {} || miss {
        b := new byte[size](_ => 0);
      } else {
        b :| b in free;
        free := free - {b};
      }
    }

    /** Overwrites the buffer with zeros and takes it back. */
    method Put(b: array<byte>)
      requires Valid() && b.Length == size && b !in free
      modifies this, b
      ensures Valid() && free == old(free) + {b}
    {
      for i := 0 to b.Length
        modifies b
        invariant forall k :: 0 <= k < i ==> b[k] == 0
      {
        b[i] := 0;
      }
      free := free + {b};
    }
  }

  /** No free buffer is memory in which a payload is stored. */
  ghost predicate Apart(pool: BufferPool, node: NodeConn)
    reads pool`free, node`memory
  {
    pool.free !! node.memory.Keys
  }

  // ---------------------------------------------------------------------------
  // The byte stream

  /** A TCP connection: the bytes the peer sent that were not read yet. How many
      of them one read returns is up to the network. */
  class TcpConn {
    var stream: Bytes

    constructor (stream: Bytes)
      ensures this.stream == stream
    {
      this.stream := stream;
    }

    /** `Read(buff[from:])`: at least one byte, at most what fits, and an error
        only at the end of the stream. */
    method Read(buff: array<byte>, from: nat) returns (num: nat, ok: bool)
      requires from < buff.Length
      modifies this, buff
      ensures ok <==> old(stream) != []
      ensures !ok ==> num == 0
      ensures ok ==> 0 < num <= buff.Length - from && num <= |old(stream)|
      ensures stream == old(stream)[num..]
      ensures buff[..] == old(buff[..from]) + old(stream)[..num] + old(buff[from + num..])
    {
      if |stream| == 0 {
        assert buff[..] == buff[..from] + buff[from..];
        return 0, false;
      }
      num :| 0 < num <= buff.Length - from && num <= |stream|;
      ghost var before := buff[..];
      for i := 0 to num
        modifies buff
        invariant buff[..] == before[..from] + stream[..i] + before[from + i..]
      {
        buff[from + i] := stream[i];
      }
      stream := stream[num..];
      ok := true;
    }
  }

  /** The frames in a byte stream: consecutive pieces of the geometry's size. An
      incomplete piece at the end is no frame. */
  ghost function Deframe(g: Geometry, data: Bytes): seq<Bytes>
    decreases |data|
  {
    if |data| < g.totalSize then []
    else [data[..g.totalSize]] + Deframe(g, data[g.totalSize..])
  }

  /** The read loop recovers the frames that were written, and drops the tail of
      a stream that breaks off inside a frame. */
  lemma {:induction false} DeframeWritten(g: Geometry, frames: seq<Bytes>, tail: Bytes)
    requires forall f :: f in frames ==> |f| == g.totalSize
    requires |tail| < g.totalSize
    ensures Deframe(g, Flatten(frames) + tail) == frames
  {
    if frames == [] {
      assert Flatten(frames) + tail == tail;
    } else {
      var rest := Flatten(frames[1..]) + tail;
      DeframeWritten(g, frames[1..], tail);
      var data := Flatten(frames) + tail;
      assert data == frames[0] + rest;
      assert data[..g.totalSize] == frames[0] && data[g.totalSize..] == rest;
    }
  }

  /** The frame-filling loop of `tcpAccept` and `ReadRespTCP`. */
  method FillFrame(conn: TcpConn, buff: array<byte>) returns (ok: bool)
    requires buff.Length > 0
    modifies conn, buff
    ensures ok <==> |old(conn.stream)| >= buff.Length
    ensures ok ==> buff[..] == old(conn.stream)[..buff.Length] && conn.stream == old(conn.stream)[buff.Length..]
    ensures !ok ==> conn.stream == []
  {
    var num;
    num, ok := conn.Read(buff, 0);
    if !ok {
      return false;
    }
    if num < buff.Length {
      var sum := num;
      while sum < buff.Length
        invariant 0 < sum <= buff.Length
        invariant sum <= |old(conn.stream)|
        invariant buff[..sum] == old(conn.stream)[..sum]
        invariant conn.stream == old(conn.stream)[sum..]
        decreases buff.Length - sum
      {
        ghost var done := buff[..sum];
        num, ok := conn.Read(buff, sum);
        if !ok {
          return false;
        }
        assert buff[..sum + num] == done + old(conn.stream)[sum..sum + num];
        sum := sum + num;
      }
    }
    assert buff[..] == buff[..buff.Length];
    return true;
  }
}
